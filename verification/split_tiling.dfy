/**
 * What `str.split()` means: a text is whitespace gaps interleaved with its
 * words. `Words.Split` yields exactly the words of the one such tiling whose
 * inner gaps are non-empty.
 */
module SplitTiling {
  import opened Words


  /** `gaps[0] + words[0] + gaps[1] + ... + words[n-1] + gaps[n]`. */
  function Interleave(gaps: seq<string>, words: seq<string>): string
    requires |gaps| == |words| + 1
    decreases |words|
  {
    if |words| == 0 then gaps[0] else gaps[0] + words[0] + Interleave(gaps[1..], words[1..])
  }

  /**
   * `s` is cut into `words` by whitespace gaps: the gaps hold only whitespace,
   * the gaps between two words are non-empty, the words are words, and gluing
   * everything back in order gives `s`.
   */
  predicate Tiles(s: string, gaps: seq<string>, words: seq<string>) {
    && |gaps| == |words| + 1
    && (forall k :: 0 <= k < |gaps| ==> AllSpace(gaps[k]))
    && (forall k :: 0 < k < |words| ==> |gaps[k]| > 0)
    && (forall k :: 0 <= k < |words| ==> IsWord(words[k]))
    && s == Interleave(gaps, words)
  }

  /** The whitespace gaps `split()` discards, before, between and after its words. */
  function Gaps(s: string): (gaps: seq<string>)
    decreases |s|
  {
    var t := DropSpace(s);
    var g := s[..|s| - |t|];
    if |t| == 0 then [g] else [g] + Gaps(t[|TakeWord(t)|..])
  }

  /** Leading whitespace followed by a non-space (or nothing) is dropped exactly. */
  lemma {:induction false} DropSpaceOf(a: string, b: string)
    requires AllSpace(a)
    requires b == [] || !IsSpace(b[0])
    ensures DropSpace(a + b) == b
    decreases |a|
  {
    if |a| == 0 {
      assert a + b == b;
    } else {
      assert (a + b)[1..] == a[1..] + b;
      DropSpaceOf(a[1..], b);
    }
  }

  /** A word followed by whitespace (or nothing) is taken exactly. */
  lemma {:induction false} TakeWordOf(w: string, r: string)
    requires NoSpace(w)
    requires r == [] || IsSpace(r[0])
    ensures TakeWord(w + r) == w
    decreases |w|
  {
    if |w| == 0 {
      assert w + r == r;
    } else {
      assert (w + r)[1..] == w[1..] + r;
      TakeWordOf(w[1..], r);
    }
  }

  /** A gap and a word in front of a tiling of `rest` tile the longer text `s`. */
  lemma TilesCons(s: string, g: string, w: string, rest: string, gaps: seq<string>, words: seq<string>,
                  gs: seq<string>, ws: seq<string>)
    requires AllSpace(g) && IsWord(w) && Tiles(rest, gaps, words)
    requires |words| > 0 ==> |gaps[0]| > 0
    requires s == g + w + rest && gs == [g] + gaps && ws == [w] + words
    ensures Tiles(s, gs, ws)
  {
    assert gs[1..] == gaps && ws[1..] == words;
    assert forall k :: 0 < k < |gs| ==> gs[k] == gaps[k - 1];
    assert forall k :: 0 < k < |ws| ==> ws[k] == words[k - 1];
  }

  /** A tiling with a first word splits into its first gap, that word, and a tiling of the rest. */
  lemma TilesUncons(s: string, gaps: seq<string>, words: seq<string>)
    requires Tiles(s, gaps, words) && |words| > 0
    ensures s == gaps[0] + (words[0] + Interleave(gaps[1..], words[1..]))
    ensures AllSpace(gaps[0]) && IsWord(words[0])
    ensures Tiles(Interleave(gaps[1..], words[1..]), gaps[1..], words[1..])
    ensures Interleave(gaps[1..], words[1..]) == [] || IsSpace(Interleave(gaps[1..], words[1..])[0])
  {
    var r := Interleave(gaps[1..], words[1..]);
    assert s == gaps[0] + (words[0] + r);
    assert forall k :: 0 <= k < |gaps| - 1 ==> gaps[1..][k] == gaps[k + 1];
    assert forall k :: 0 <= k < |words| - 1 ==> words[1..][k] == words[k + 1];
    if |words| > 1 {
      assert r == gaps[1..][0] + words[1..][0] + Interleave(gaps[1..][1..], words[1..][1..]);
      assert |gaps[1]| > 0 && IsSpace(gaps[1][0]);
    } else {
      assert r == gaps[1];
    }
  }

  /** A text is its prefix before `t`, then `w`, then the rest of `t`, when `t` ends it and `w` starts `t`. */
  lemma Glue(s: string, t: string, w: string)
    requires |t| <= |s| && t == s[|s| - |t|..] && |w| <= |t| && w == t[..|w|]
    ensures s == s[..|s| - |t|] + w + t[|w|..]
  {
    assert s == s[..|s| - |t|] + s[|s| - |t|..];
    assert t == t[..|w|] + t[|w|..];
  }

  /** `split()` peels off the first word. */
  lemma SplitStep(s: string)
    requires |DropSpace(s)| > 0
    ensures Split(s) == [TakeWord(DropSpace(s))] + Split(DropSpace(s)[|TakeWord(DropSpace(s))|..])
  {
  }

  /** The gaps peel off the leading gap. */
  lemma GapsStep(s: string)
    requires |DropSpace(s)| > 0
    ensures Gaps(s) == [s[..|s| - |DropSpace(s)|]] + Gaps(DropSpace(s)[|TakeWord(DropSpace(s))|..])
  {
    var t := DropSpace(s);
    assert |t| != 0;
  }

  /** The text is its leading gap, then its first word, then the rest. */
  lemma SplitGlue(s: string)
    requires |DropSpace(s)| > 0
    ensures var t := DropSpace(s);
            var w := TakeWord(t);
            s == s[..|s| - |t|] + w + t[|w|..]
  {
    var t := DropSpace(s);
    var w := TakeWord(t);
    assert |t| <= |s| && t == s[|s| - |t|..];
    assert |w| <= |t| && w == t[..|w|];
    Glue(s, t, w);
  }

  /** The leading gap is whitespace, the first word a word, and what follows it starts with whitespace. */
  lemma SplitParts(s: string)
    requires |DropSpace(s)| > 0
    ensures AllSpace(s[..|s| - |DropSpace(s)|])
    ensures IsWord(TakeWord(DropSpace(s)))
    ensures |TakeWord(DropSpace(s))| < |DropSpace(s)| ==> IsSpace(DropSpace(s)[|TakeWord(DropSpace(s))|])
  {
    DroppedIsSpace(s);
    TakenHasNoSpace(DropSpace(s));
  }

  /** A text starting with whitespace has a non-empty leading gap. */
  lemma LeadingGap(s: string)
    requires |s| > 0 && IsSpace(s[0])
    ensures |Gaps(s)[0]| > 0
  {
  }

  /** A text with no word is one gap: `split()` gives nothing and the gap is the whole text. */
  lemma SplitNone(s: string)
    requires |DropSpace(s)| == 0
    ensures Split(s) == [] && Gaps(s) == [s] && Tiles(s, [s], [])
  {
    DroppedIsSpace(s);
    assert s[..|s|] == s;
  }

  /** Every text is tiled by the words `split()` returns and the gaps between them. */
  lemma {:induction false} SplitTiles(s: string)
    ensures Tiles(s, Gaps(s), Split(s))
    decreases |s|
  {
    var t := DropSpace(s);
    if |t| > 0 {
      var g := s[..|s| - |t|];
      var w := TakeWord(t);
      var rest := t[|w|..];
      SplitStep(s);
      GapsStep(s);
      SplitGlue(s);
      SplitParts(s);
      SplitTiles(rest);
      if |Split(rest)| > 0 {
        SplitNone([]);
        LeadingGap(rest);
      }
      TilesCons(s, g, w, rest, Gaps(rest), Split(rest), Gaps(s), Split(s));
    } else {
      SplitNone(s);
    }
  }

  /** A gap, a word and a text that does not continue the word: `split()` yields the word, then the text's words. */
  lemma SplitHead(s: string, g: string, w: string, r: string)
    requires AllSpace(g) && IsWord(w)
    requires r == [] || IsSpace(r[0])
    requires s == g + (w + r)
    ensures Split(s) == [w] + Split(r)
  {
    DropSpaceOf(g, w + r);
    TakeWordOf(w, r);
    assert (w + r)[|w|..] == r;
    SplitStep(s);
  }

  /** A text of whitespace only has no words. */
  lemma SplitAllSpace(g: string)
    requires AllSpace(g)
    ensures Split(g) == []
  {
    DropSpaceOf(g, []);
    assert g + [] == g;
    SplitNone(g);
  }

  /** One step of uniqueness: if the rest of a tiling has `split()`'s words, so has the whole. */
  lemma SplitUniqueStep(s: string, gaps: seq<string>, words: seq<string>)
    requires Tiles(s, gaps, words) && |words| > 0
    requires words[1..] == Split(Interleave(gaps[1..], words[1..]))
    ensures words == Split(s)
  {
    var g, w, r := gaps[0], words[0], Interleave(gaps[1..], words[1..]);
    TilesUncons(s, gaps, words);
    assert s == g + (w + r);
    assert r == [] || IsSpace(r[0]);
    assert AllSpace(g) && IsWord(w);
    SplitHead(s, g, w, r);
    assert words == [w] + words[1..];
  }

  /** Any tiling of `s` into whitespace gaps and words has exactly `split()`'s words. */
  lemma {:induction false} SplitUnique(s: string, gaps: seq<string>, words: seq<string>)
    requires Tiles(s, gaps, words)
    ensures words == Split(s)
    decreases |words|
  {
    if |words| == 0 {
      assert s == gaps[0] && AllSpace(gaps[0]);
      SplitAllSpace(gaps[0]);
    } else {
      TilesUncons(s, gaps, words);
      SplitUnique(Interleave(gaps[1..], words[1..]), gaps[1..], words[1..]);
      SplitUniqueStep(s, gaps, words);
    }
  }

  /** `split()`'s words are exactly the word sequences that tile the text with whitespace gaps. */
  lemma SplitIsTheTiling(s: string, words: seq<string>)
    ensures words == Split(s) <==> exists gaps :: Tiles(s, gaps, words)
  {
    SplitTiles(s);
    if exists gaps :: Tiles(s, gaps, words) {
      var gaps :| Tiles(s, gaps, words);
      SplitUnique(s, gaps, words);
    }
  }
}
