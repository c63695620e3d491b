/** The in-place word reversal of problems/phrase_flipper.c. */
module PhraseFlipper {

  // ---- words ----

  ghost function Reverse<T>(s: seq<T>): (r: seq<T>)
    ensures |r| == |s|
    ensures forall i :: 0 <= i < |s| ==> r[i] == s[|s| - 1 - i]
  {
    if s == [] then [] else Reverse(s[1..]) + [s[0]]
  }

  /** The position of the first space, or the length. */
  ghost function FirstSpace(s: string): (k: nat)
    ensures k <= |s| && ' ' !in s[..k]
    ensures k < |s| ==> s[k] == ' '
  {
    if s == "" || s[0] == ' ' then 0 else 1 + FirstSpace(s[1..])
  }

  /** The words between single spaces; repeated, leading and trailing spaces give empty words. */
  ghost function Split(s: string): (words: seq<string>)
    ensures |words| > 0
    decreases |s|
  {
    var k := FirstSpace(s);
    if k == |s| then [s] else [s[..k]] + Split(s[k + 1..])
  }

  ghost function Join(words: seq<string>): string
    requires |words| > 0
  {
    if |words| == 1 then words[0] else words[0] + " " + Join(words[1..])
  }

  /** The specification: the words in reverse order. */
  ghost function Flip(s: string): string
  {
    Join(Reverse(Split(s)))
  }

  ghost predicate NoSpaces(words: seq<string>)
  {
    forall i :: 0 <= i < |words| ==> ' ' !in words[i]
  }

  lemma JoinFirst(w: string, words: seq<string>)
    requires |words| > 0
    ensures Join([w] + words) == w + " " + Join(words)
  {
    assert ([w] + words)[1..] == words;
  }

  lemma CutAt(s: string, k: nat)
    requires k < |s| && s[k] == ' '
    ensures s == s[..k] + " " + s[k + 1..]
  {
  }

  lemma {:induction false} JoinSplit(s: string)
    ensures Join(Split(s)) == s && NoSpaces(Split(s))
    decreases |s|
  {
    var k := FirstSpace(s);
    if k == |s| {
      assert s[..k] == s;
    } else {
      var word, rest := s[..k], s[k + 1..];
      JoinSplit(rest);
      JoinFirst(word, Split(rest));
      CutAt(s, k);
    }
  }

  lemma {:induction false} FirstSpaceIs(s: string, k: nat)
    requires k <= |s| && ' ' !in s[..k] && (k < |s| ==> s[k] == ' ')
    ensures FirstSpace(s) == k
  {
    if k == 0 {
    } else {
      assert s[0] == s[..k][0];
      assert s[1..][..k - 1] == s[..k][1..];
      FirstSpaceIs(s[1..], k - 1);
    }
  }

  /** A word without spaces and the space after it are split off. */
  lemma SplitFirst(w: string, rest: string)
    requires ' ' !in w
    ensures Split(w + " " + rest) == [w] + Split(rest)
  {
    var s, k := w + " " + rest, |w|;
    assert s[..k] == w && s[k] == ' ';
    assert s[k + 1..] == rest;
    FirstSpaceIs(s, k);
  }

  lemma {:induction false} SplitJoin(words: seq<string>)
    requires |words| > 0 && NoSpaces(words)
    ensures Split(Join(words)) == words
  {
    if |words| == 1 {
      var w := words[0];
      assert w[..|w|] == w;
      FirstSpaceIs(w, |w|);
    } else {
      SplitFirst(words[0], Join(words[1..]));
      SplitJoin(words[1..]);
      assert words == [words[0]] + words[1..];
    }
  }

  lemma ReverseTwice<T>(s: seq<T>)
    ensures Reverse(Reverse(s)) == s
  {
  }

  /** Flipping twice restores any string. */
  lemma FlipTwice(s: string)
    ensures Flip(Flip(s)) == s
  {
    var words := Split(s);
    JoinSplit(s);
    SplitJoin(Reverse(words));
    ReverseTwice(words);
  }

  /** The result in terms of the words: if `s` is `words` with single spaces between them, its flip is the same backwards. */
  lemma FlipIsBackwards(words: seq<string>)
    requires |words| > 0 && forall i :: 0 <= i < |words| ==> ' ' !in words[i]
    ensures Flip(Join(words)) == Join(Reverse(words))
  {
    SplitJoin(words);
  }

  /** Three words, as in the phrase of the program, with the spaces written out. */
  lemma FlipThree(a: string, b: string, c: string)
    requires ' ' !in a && ' ' !in b && ' ' !in c
    ensures Flip(a + " " + b + " " + c) == c + " " + b + " " + a
  {
    JoinThree(a, b, c);
    JoinThree(c, b, a);
    assert Reverse([a, b, c]) == [c, b, a];
    FlipIsBackwards([a, b, c]);
  }

  lemma JoinThree(a: string, b: string, c: string)
    ensures Join([a, b, c]) == a + " " + b + " " + c
  {
    assert [a] + [b, c] == [a, b, c] && [b] + [c] == [b, c];
    JoinFirst(a, [b, c]);
    JoinFirst(b, [c]);
  }

  // ---- why reversing everything and then each word flips ----

  ghost function EachReversed(words: seq<string>): (r: seq<string>)
    ensures |r| == |words|
  {
    seq(|words|, i requires 0 <= i < |words| => Reverse(words[i]))
  }

  /** What the second half of the algorithm computes: every word reversed where it stands. */
  ghost function ReverseEach(s: string): (r: string)
    ensures |r| == |s|
    decreases |s|
  {
    var k := FirstSpace(s);
    if k == |s| then Reverse(s) else Reverse(s[..k]) + " " + ReverseEach(s[k + 1..])
  }

  lemma {:induction false} ReverseEachIsJoin(s: string)
    ensures ReverseEach(s) == Join(EachReversed(Split(s)))
    decreases |s|
  {
    var k := FirstSpace(s);
    if k == |s| {
    } else {
      ReverseEachIsJoin(s[k + 1..]);
      assert EachReversed(Split(s))[1..] == EachReversed(Split(s[k + 1..]));
    }
  }

  lemma {:induction false} ReverseConcat<T>(a: seq<T>, b: seq<T>)
    ensures Reverse(a + b) == Reverse(b) + Reverse(a)
  {
    if a == [] {
      assert a + b == b;
    } else {
      assert (a + b)[1..] == a[1..] + b;
      ReverseConcat(a[1..], b);
    }
  }

  lemma {:induction false} JoinLast(words: seq<string>, w: string)
    requires |words| > 0
    ensures Join(words + [w]) == Join(words) + " " + w
  {
    if |words| == 1 {
    } else {
      assert (words + [w])[1..] == words[1..] + [w];
      JoinLast(words[1..], w);
    }
  }

  /** Reversing a phrase reverses the order of its words and each word. */
  lemma {:induction false} ReverseJoin(words: seq<string>)
    requires |words| > 0
    ensures Reverse(Join(words)) == Join(EachReversed(Reverse(words)))
  {
    var w := words[0];
    if |words| == 1 {
      assert Reverse(words) == words;
      assert EachReversed(words) == [Reverse(w)];
    } else {
      var rest := words[1..];
      ReverseJoin(rest);
      ReverseConcat(w + " ", Join(rest));
      ReverseConcat(w, " ");
      assert Reverse(" ") == " ";
      assert EachReversed(Reverse(words)) == EachReversed(Reverse(rest)) + [Reverse(w)];
      JoinLast(EachReversed(Reverse(rest)), Reverse(w));
    }
  }

  /** The two passes together flip the phrase. */
  lemma TwoPassesFlip(s: string)
    ensures ReverseEach(Reverse(s)) == Flip(s)
  {
    var words := Split(s);
    var backwards := EachReversed(Reverse(words));
    JoinSplit(s);
    ReverseJoin(words);
    assert NoSpaces(backwards);
    SplitJoin(backwards);
    ReverseEachIsJoin(Reverse(s));
    forall i | 0 <= i < |words| ensures EachReversed(backwards)[i] == Reverse(words)[i] {
      ReverseTwice(Reverse(words)[i]);
    }
    assert EachReversed(backwards) == Reverse(words);
  }

  // ---- the code ----

  /** The text of a buffer: everything before the first terminator. */
  ghost function Text(buffer: seq<char>): (s: string)
    requires '\0' in buffer
    ensures |s| < |buffer| && s == buffer[..|s|] && buffer[|s|] == '\0' && '\0' !in s
  {
    if buffer[0] == '\0' then "" else [buffer[0]] + Text(buffer[1..])
  }

  /** Reverses the characters from `left` to `right`; an empty chunk has `right == left - 1`. */
  method ReverseChunk(str: array<char>, left: int, right: int)
    requires 0 <= left <= right + 1 <= str.Length
    modifies str
    ensures forall i :: 0 <= i < str.Length ==>
              str[i] == if left <= i <= right then old(str[left + right - i]) else old(str[i])
  {
    var l, r := left, right;
    while l < r
      invariant left <= l <= right + 1 && left - 1 <= r <= right && l - left == right - r
      invariant l <= r + 2
      invariant forall i :: 0 <= i < str.Length ==>
        str[i] == if left <= i < l || r < i <= right then old(str[left + right - i]) else old(str[i])
    {
      var temp := str[l];
      str[l] := str[r];
      str[r] := temp;
      l := l + 1;
      r := r - 1;
    }
  }

  /** The buffer holds `text` up to its length. */
  ghost predicate Holds(str: array<char>, text: string)
    reads str
  {
    |text| <= str.Length && forall i :: 0 <= i < |text| ==> str[i] == text[i]
  }

  /** The stretch from `start` to `end` is a whole word of `s`, possibly empty. */
  ghost predicate IsWord(s: string, start: int, end: int)
  {
    && 0 <= start <= end <= |s| && ' ' !in s[start..end]
    && (start == 0 || s[start - 1] == ' ') && (end == |s| || s[end] == ' ')
  }

  /** `t` holds the word of `s` from `start` to `end` backwards, and the space after it. */
  ghost predicate Mirrors(s: string, t: string, start: int, end: int)
  {
    && 0 <= start <= end <= |s| == |t|
    && (forall i :: start <= i < end ==> t[i] == s[start + end - 1 - i])
    && (end < |s| ==> t[end] == ' ')
  }

  ghost predicate MirrorsWords(s: string, t: string)
  {
    forall start, end :: IsWord(s, start, end) ==> Mirrors(s, t, start, end)
  }

  /** A word that starts no later than the first space is the first word. */
  lemma FirstWord(s: string, start: int, end: int, k: nat)
    requires IsWord(s, start, end) && start <= k <= |s| && ' ' !in s[..k] && (k < |s| ==> s[k] == ' ')
    ensures start == 0 && end == k
  {
    assert forall i :: 0 <= i < k ==> s[..k][i] == s[i];
    assert forall i :: start <= i < end ==> s[start..end][i - start] == s[i];
  }

  lemma Parts(t: string, a: string, c: string)
    requires t == a + " " + c
    ensures t[..|a|] == a && t[|a|] == ' ' && t[|a| + 1..] == c
  {
  }

  lemma FirstMirrored(s: string, t: string, k: nat)
    requires k <= |s| == |t| && t[..k] == Reverse(s[..k]) && (k < |s| ==> t[k] == ' ')
    ensures Mirrors(s, t, 0, k)
  {
    assert forall i :: 0 <= i < k ==> t[i] == t[..k][i] && s[i] == s[..k][i];
  }

  lemma LaterWord(s: string, from: int, start: int, end: int)
    requires IsWord(s, start, end) && 0 <= from <= start
    ensures IsWord(s[from..], start - from, end - from)
  {
    assert s[from..][start - from..end - from] == s[start..end];
  }

  /** Mirroring the rest of a text, shifted by what is in front of it. */
  lemma MirrorsShifted(s: string, t: string, from: int, start: int, end: int, rest: string, back: string)
    requires 0 <= from <= start <= end <= |s| == |t| && rest == s[from..] && back == t[from..]
    requires Mirrors(rest, back, start - from, end - from)
    ensures Mirrors(s, t, start, end)
  {
    assert forall i :: from <= i < |s| ==> t[i] == back[i - from] && s[i] == rest[i - from];
  }

  /** The first word and the rest of the text mirrored make the whole mirrored. */
  lemma AllMirrored(s: string, t: string, k: nat, rest: string, back: string)
    requires k < |s| == |t| && ' ' !in s[..k] && s[k] == ' ' && rest == s[k + 1..]
    requires t == Reverse(s[..k]) + " " + back && MirrorsWords(rest, back)
    ensures MirrorsWords(s, t)
  {
    Parts(t, Reverse(s[..k]), back);
    FirstMirrored(s, t, k);
    forall start, end | IsWord(s, start, end) ensures Mirrors(s, t, start, end) {
      if start <= k {
        FirstWord(s, start, end, k);
      } else {
        LaterWord(s, k + 1, start, end);
        MirrorsShifted(s, t, k + 1, start, end, rest, back);
      }
    }
  }

  lemma OneMirrored(s: string)
    requires ' ' !in s
    ensures MirrorsWords(s, Reverse(s))
  {
    assert s[..|s|] == s && Reverse(s)[..|s|] == Reverse(s);
    forall start, end | IsWord(s, start, end) ensures Mirrors(s, Reverse(s), start, end) {
      FirstWord(s, start, end, |s|);
    }
  }

  /** The second pass, word by word. */
  lemma {:induction false} WordsMirrored(s: string)
    ensures MirrorsWords(s, ReverseEach(s))
    decreases |s|
  {
    var k := FirstSpace(s);
    if k == |s| {
      assert s[..k] == s;
      OneMirrored(s);
    } else {
      var rest := s[k + 1..];
      WordsMirrored(rest);
      AllMirrored(s, ReverseEach(s), k, rest, ReverseEach(rest));
    }
  }

  /** During the second pass: the result `t` up to `k`, and the text `s` from there on. */
  ghost predicate Halfway(str: array<char>, s: string, t: string, k: int)
    reads str
  {
    && |t| == |s| < str.Length && 0 <= k <= |s| && str[|s|] == '\0'
    && (forall i :: 0 <= i < k ==> str[i] == t[i])
    && (forall i :: k <= i < |s| ==> str[i] == s[i])
  }

  /** The scan for the end of the current word. */
  method FindWordEnd(str: array<char>, wordStart: int, ghost s: string, ghost t: string) returns (wordEnd: int)
    requires Halfway(str, s, t, wordStart) && '\0' !in s && (wordStart == 0 || s[wordStart - 1] == ' ')
    ensures IsWord(s, wordStart, wordEnd)
  {
    wordEnd := wordStart;
    while str[wordEnd] != ' ' && str[wordEnd] != '\0'
      invariant wordStart <= wordEnd <= |s|
      invariant ' ' !in s[wordStart..wordEnd]
      decreases |s| - wordEnd
    {
      wordEnd := wordEnd + 1;
    }
  }

  /** One round of the second pass: reverses the word at `wordStart` in place. */
  method ReverseWord(str: array<char>, wordStart: int, ghost s: string, ghost t: string) returns (wordEnd: int)
    requires Halfway(str, s, t, wordStart) && '\0' !in s && (wordStart == 0 || s[wordStart - 1] == ' ')
    requires MirrorsWords(s, t)
    modifies str
    ensures wordStart <= wordEnd <= |s| && (str[wordEnd] == '\0' <==> wordEnd == |s|)
    ensures wordEnd < |s| ==> s[wordEnd] == ' '
    ensures Halfway(str, s, t, if wordEnd < |s| then wordEnd + 1 else wordEnd)
    ensures forall i :: |s| <= i < str.Length ==> str[i] == old(str[i])
  {
    wordEnd := FindWordEnd(str, wordStart, s, t);
    assert Mirrors(s, t, wordStart, wordEnd);
    ReverseChunk(str, wordStart, wordEnd - 1);
  }

  /** The second pass: finds each word and reverses it in place. */
  method ReverseEachWord(str: array<char>, ghost s: string, ghost t: string)
    requires Halfway(str, s, t, 0) && '\0' !in s && MirrorsWords(s, t)
    modifies str
    ensures Holds(str, t) && forall i :: |s| <= i < str.Length ==> str[i] == old(str[i])
  {
    var wordStart: int := 0;
    while str[wordStart] != '\0'
      invariant Halfway(str, s, t, wordStart)
      invariant wordStart == 0 || wordStart == |s| || s[wordStart - 1] == ' '
      invariant forall i :: |s| <= i < str.Length ==> str[i] == old(str[i])
      decreases |s| - wordStart
    {
      var wordEnd := ReverseWord(str, wordStart, s, t);
      if str[wordEnd] == '\0' {
        wordStart := wordEnd;
        break;
      } else {
        wordStart := wordEnd + 1;
      }
    }
  }

  /** The first pass: finds the terminator and reverses everything before it. */
  method ReverseText(str: array<char>, ghost s: string)
    requires Holds(str, s) && |s| < str.Length && str[|s|] == '\0' && '\0' !in s
    modifies str
    ensures Holds(str, Reverse(s)) && forall i :: |s| <= i < str.Length ==> str[i] == old(str[i])
  {
    var end := 0;
    while str[end] != '\0'
      invariant 0 <= end <= |s|
      decreases |s| - end
    {
      end := end + 1;
    }
    ReverseChunk(str, 0, end - 1);
  }

  /** Reverses the order of the words of a terminated string; a null pointer is left alone. */
  method ReverseWords(str: array?<char>)
    requires str != null ==> '\0' in str[..]
    modifies str
    ensures str != null ==> var s := Text(old(str[..]));
              Holds(str, Flip(s)) && |Flip(s)| == |s| && forall i :: |s| <= i < str.Length ==> str[i] == old(str[i])
  {
    if str == null || str[0] == '\0' {
      return;
    }
    ghost var s := Text(str[..]);
    ghost var backwards := Reverse(s);
    assert '\0' !in backwards;
    ReverseText(str, s);
    WordsMirrored(backwards);
    TwoPassesFlip(s);
    ReverseEachWord(str, backwards, Flip(s));
  }
}
