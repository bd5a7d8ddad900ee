/**
 * Word counting as the mirror does it: the number of pieces Python's
 * `str.split()` (no separator) cuts a text into, i.e. its maximal runs of
 * non-whitespace characters.
 */
module Words {

  /** The characters Python's `str.isspace` accepts, which `str.split()` splits on. */
  predicate IsSpace(c: char) {
    var n := c as int;
    || (0x09 <= n <= 0x0D) || (0x1C <= n <= 0x20) || n == 0x85 || n == 0xA0
    || n == 0x1680 || (0x2000 <= n <= 0x200A) || n == 0x2028 || n == 0x2029
    || n == 0x202F || n == 0x205F || n == 0x3000
  }

  /** The text with its leading whitespace removed. */
  function DropSpace(s: string): (t: string)
    ensures |t| <= |s| && t == s[|s| - |t|..]
    ensures |t| > 0 ==> !IsSpace(t[0])
  {
    if |s| == 0 || !IsSpace(s[0]) then s else DropSpace(s[1..])
  }

  /** Everything `DropSpace` removes is whitespace. */
  lemma {:induction false} DroppedIsSpace(s: string)
    ensures AllSpace(s[..|s| - |DropSpace(s)|])
    decreases |s|
  {
    if |s| > 0 && IsSpace(s[0]) {
      DroppedIsSpace(s[1..]);
      assert forall i :: 1 <= i < |s| - |DropSpace(s)| ==> s[i] == s[1..][i - 1];
    }
  }

  /** The leading run of non-whitespace characters. */
  function TakeWord(s: string): (w: string)
    ensures |w| <= |s| && w == s[..|w|]
    ensures |w| < |s| ==> IsSpace(s[|w|])
    ensures |s| > 0 && !IsSpace(s[0]) ==> |w| > 0
  {
    if |s| == 0 || IsSpace(s[0]) then [] else [s[0]] + TakeWord(s[1..])
  }

  /** Free of whitespace. */
  predicate NoSpace(w: string) {
    forall i :: 0 <= i < |w| ==> !IsSpace(w[i])
  }

  /** A word: non-empty and free of whitespace. */
  predicate IsWord(w: string) {
    |w| > 0 && NoSpace(w)
  }

  /** What `TakeWord` takes holds no whitespace. */
  lemma {:induction false} TakenHasNoSpace(s: string)
    ensures NoSpace(TakeWord(s))
    decreases |s|
  {
    if |s| > 0 && !IsSpace(s[0]) {
      TakenHasNoSpace(s[1..]);
      var w := TakeWord(s[1..]);
      assert forall i :: 1 <= i < |w| + 1 ==> ([s[0]] + w)[i] == w[i - 1];
    }
  }

  predicate AllSpace(g: string) {
    forall i :: 0 <= i < |g| ==> IsSpace(g[i])
  }

  /** `s.split()`: the maximal whitespace-free runs of `s`, in order. */
  function Split(s: string): seq<string>
    decreases |s|
  {
    var t := DropSpace(s);
    if |t| == 0 then [] else [TakeWord(t)] + Split(t[|TakeWord(t)|..])
  }

  /** Run starts scanned left to right: a character starts a word when it is not whitespace and follows whitespace or the start. */
  function CountStarts(s: string, afterSpace: bool): nat
    decreases |s|
  {
    if |s| == 0 then 0
    else (if afterSpace && !IsSpace(s[0]) then 1 else 0) + CountStarts(s[1..], IsSpace(s[0]))
  }

  /** The word count stored for a section. */
  function WordCount(text: string): nat {
    CountStarts(text, true)
  }

  lemma {:induction false} StartsSkipSpace(s: string)
    ensures CountStarts(s, true) == CountStarts(DropSpace(s), true)
    decreases |s|
  {
    if |s| > 0 && IsSpace(s[0]) {
      StartsSkipSpace(s[1..]);
    }
  }

  lemma {:induction false} StartsSkipWord(s: string)
    requires |s| > 0 && !IsSpace(s[0])
    ensures CountStarts(s, true) == 1 + CountStarts(s[|TakeWord(s)|..], true)
    decreases |s|
  {
    InsideWord(s[1..]);
  }

  /** Inside a word nothing new starts until the word ends. */
  lemma {:induction false} InsideWord(s: string)
    ensures CountStarts(s, false) == CountStarts(s[|TakeWord(s)|..], true)
    decreases |s|
  {
    if |s| > 0 && !IsSpace(s[0]) {
      InsideWord(s[1..]);
      assert s[1..][|TakeWord(s[1..])|..] == s[|TakeWord(s)|..];
    }
  }

  /** The word count is the number of pieces `split()` yields. */
  lemma {:induction false} WordCountIsSplitLength(text: string)
    ensures WordCount(text) == |Split(text)|
    decreases |text|
  {
    StartsSkipSpace(text);
    var t := DropSpace(text);
    if |t| > 0 {
      var w := TakeWord(t);
      var rest := t[|w|..];
      StartsSkipWord(t);
      WordCountIsSplitLength(rest);
      assert Split(text) == [w] + Split(rest);
      assert WordCount(text) == 1 + WordCount(rest);
    } else {
      assert Split(text) == [];
      assert WordCount(text) == CountStarts(t, true) == 0;
    }
  }

  /** Whether the scan is just after whitespace (or at the start) once it has read `a`. */
  function AfterSpaceAtEnd(a: string, afterSpace: bool): bool {
    if |a| == 0 then afterSpace else IsSpace(a[|a| - 1])
  }

  lemma {:induction false} CountStartsAppend(a: string, b: string, afterSpace: bool)
    ensures CountStarts(a + b, afterSpace) == CountStarts(a, afterSpace) + CountStarts(b, AfterSpaceAtEnd(a, afterSpace))
    decreases |a|
  {
    if |a| > 0 {
      assert (a + b)[1..] == a[1..] + b;
      CountStartsAppend(a[1..], b, IsSpace(a[0]));
      assert AfterSpaceAtEnd(a[1..], IsSpace(a[0])) == AfterSpaceAtEnd(a, afterSpace);
    } else {
      assert a + b == b;
    }
  }

  /** Word counts add up across a space: joining two texts with a space neither merges nor splits words. */
  lemma WordCountAcrossSpace(a: string, b: string)
    ensures WordCount(a + " " + b) == WordCount(a) + WordCount(b)
  {
    assert a + " " + b == a + (" " + b);
    CountStartsAppend(a, " " + b, true);
    assert (" " + b)[1..] == b;
  }
}
