/** The string operations the assembler relies on: `split` on a character,
    `trim`, and splitting a line into whitespace-separated words. */
module Text {
  import opened Base

  /** The characters JavaScript's `trim` and `\s` treat as white space: the
      ECMAScript white space (tab, vertical tab, form feed, space, no-break
      space, byte-order mark and the Unicode space separators) and the line
      terminators (line feed, carriage return, U+2028 and U+2029). */
  predicate IsWhitespace(c: char) {
    c == ' ' || c == '\t' || c == '\n' || c == '\r' || c == '\U{0B}' || c == '\U{0C}'
    || c == '\U{A0}' || c == '\U{FEFF}' || c == '\U{1680}'
    || ('\U{2000}' <= c <= '\U{200A}')
    || c == '\U{2028}' || c == '\U{2029}' || c == '\U{202F}' || c == '\U{205F}' || c == '\U{3000}'
  }

  predicate HasWhitespace(s: string) {
    exists i :: 0 <= i < |s| && IsWhitespace(s[i])
  }

  /** Position of the first occurrence of `c` at or after `from`. */
  function IndexFrom(s: string, c: char, from: nat): (r: Option<nat>)
    requires from <= |s|
    ensures r.Some? ==> from <= r.value < |s| && s[r.value] == c
    decreases |s| - from
  {
    if from == |s| then None
    else if s[from] == c then Some(from)
    else IndexFrom(s, c, from + 1)
  }

  /** Position of the first occurrence of `c`. */
  function IndexOf(s: string, c: char): (r: Option<nat>)
    ensures r.Some? ==> r.value < |s| && s[r.value] == c
  {
    IndexFrom(s, c, 0)
  }

  /** `IndexFrom` finds the first occurrence, and finds nothing exactly when
      there is none. */
  lemma {:induction false} IndexFromFirst(s: string, c: char, from: nat)
    requires from <= |s|
    ensures IndexFrom(s, c, from).Some? ==>
              forall i :: from <= i < IndexFrom(s, c, from).value ==> s[i] != c
    ensures IndexFrom(s, c, from).None? <==> forall i :: from <= i < |s| ==> s[i] != c
    decreases |s| - from
  {
    if from < |s| && s[from] != c {
      IndexFromFirst(s, c, from + 1);
    }
  }

  lemma IndexOfFirst(s: string, c: char)
    ensures IndexOf(s, c).Some? ==> c !in s[..IndexOf(s, c).value]
    ensures IndexOf(s, c).None? <==> c !in s
  {
    IndexFromFirst(s, c, 0);
  }

  /** An occurrence at `k` with none between `from` and `k` is the one found. */
  lemma {:induction false} IndexFromAt(s: string, c: char, from: nat, k: nat)
    requires from <= k < |s| && s[k] == c
    requires forall i :: from <= i < k ==> s[i] != c
    ensures IndexFrom(s, c, from) == Some(k)
    decreases |s| - from
  {
    if from < k {
      IndexFromAt(s, c, from + 1, k);
    }
  }

  /** `s.split(sep)` for a one-character separator. */
  function Split(s: string, sep: char): (parts: seq<string>)
    ensures |parts| >= 1
    ensures forall i :: 0 <= i < |parts| ==> sep !in parts[i]
    decreases |s|
  {
    IndexOfFirst(s, sep);
    match IndexOf(s, sep)
    case None => [s]
    case Some(k) => [s[..k]] + Split(s[k + 1..], sep)
  }

  /** `parts.join(sep)`: the inverse of `Split`. */
  function Join(parts: seq<string>, sep: char): string {
    if |parts| == 0 then ""
    else if |parts| == 1 then parts[0]
    else parts[0] + [sep] + Join(parts[1..], sep)
  }

  /** Splitting and re-joining gives back the text. */
  lemma {:induction false} JoinSplit(s: string, sep: char)
    ensures Join(Split(s, sep), sep) == s
    decreases |s|
  {
    match IndexOf(s, sep)
    case None =>
    case Some(k) =>
      var rest := Split(s[k + 1..], sep);
      assert Split(s, sep) == [s[..k]] + rest;
      assert ([s[..k]] + rest)[1..] == rest;
      JoinSplit(s[k + 1..], sep);
      assert s == s[..k] + [sep] + s[k + 1..];
  }

  /** Joining separator-free pieces and splitting again gives the pieces. */
  lemma {:induction false} SplitJoin(parts: seq<string>, sep: char)
    requires |parts| >= 1
    requires forall i :: 0 <= i < |parts| ==> sep !in parts[i]
    ensures Split(Join(parts, sep), sep) == parts
  {
    if |parts| == 1 {
      IndexOfFirst(parts[0], sep);
    } else {
      var rest := Join(parts[1..], sep);
      var s := parts[0] + [sep] + rest;
      assert s[..|parts[0]|] == parts[0];
      assert s[|parts[0]| + 1..] == rest;
      assert IndexOf(s, sep) == Some(|parts[0]|) by {
        IndexOfAfter(parts[0], sep, rest);
      }
      SplitJoin(parts[1..], sep);
    }
  }

  /** The first occurrence of `c` in `a + [c] + b`, when `a` has none, is
      right after `a`. */
  lemma {:induction false} IndexOfAfter(a: string, c: char, b: string)
    requires c !in a
    ensures IndexOf(a + [c] + b, c) == Some(|a|)
  {
    var s := a + [c] + b;
    assert s[|a|] == c;
    forall i | 0 <= i < |a| ensures s[i] != c {
      assert s[i] == a[i];
    }
    IndexFromAt(s, c, 0, |a|);
  }

  /** First position at or after `from` that is not white space. */
  function SpaceEnd(s: string, from: nat): (i: nat)
    requires from <= |s|
    ensures from <= i <= |s|
    ensures i < |s| ==> !IsWhitespace(s[i])
    decreases |s| - from
  {
    if from < |s| && IsWhitespace(s[from]) then SpaceEnd(s, from + 1) else from
  }

  /** First position at or after `from` that is white space. */
  function WordEnd(s: string, from: nat): (i: nat)
    requires from <= |s|
    ensures from <= i <= |s|
    ensures i < |s| ==> IsWhitespace(s[i])
    decreases |s| - from
  {
    if from < |s| && !IsWhitespace(s[from]) then WordEnd(s, from + 1) else from
  }

  /** Going down from `upTo`, but not below `from`, the first position that
      follows something other than white space. */
  function SpaceStart(s: string, from: nat, upTo: nat): (i: nat)
    requires from <= upTo <= |s|
    ensures from <= i <= upTo
    ensures i > from ==> !IsWhitespace(s[i - 1])
    decreases upTo
  {
    if upTo > from && IsWhitespace(s[upTo - 1]) then SpaceStart(s, from, upTo - 1) else upTo
  }

  lemma {:induction false} SpaceEndSkips(s: string, from: nat)
    requires from <= |s|
    ensures forall i :: from <= i < SpaceEnd(s, from) ==> IsWhitespace(s[i])
    decreases |s| - from
  {
    if from < |s| && IsWhitespace(s[from]) {
      SpaceEndSkips(s, from + 1);
    }
  }

  lemma {:induction false} WordEndSkips(s: string, from: nat)
    requires from <= |s|
    ensures forall i :: from <= i < WordEnd(s, from) ==> !IsWhitespace(s[i])
    decreases |s| - from
  {
    if from < |s| && !IsWhitespace(s[from]) {
      WordEndSkips(s, from + 1);
    }
  }

  lemma {:induction false} SpaceStartSkips(s: string, from: nat, upTo: nat)
    requires from <= upTo <= |s|
    decreases upTo
    ensures forall i :: SpaceStart(s, from, upTo) <= i < upTo ==> IsWhitespace(s[i])
  {
    if upTo > from && IsWhitespace(s[upTo - 1]) {
      SpaceStartSkips(s, from, upTo - 1);
    }
  }

  /** `s.trim()`: the slice left after dropping white space at both ends. */
  function Trim(s: string): (r: string)
    ensures r == [] || (!IsWhitespace(r[0]) && !IsWhitespace(r[|r| - 1]))
    ensures forall c :: c in r ==> c in s
  {
    var lead := SpaceEnd(s, 0);
    if lead == |s| then ""
    else s[lead .. SpaceStart(s, lead + 1, |s|)]
  }

  /** Text that already has no white space at either end is left alone. */
  lemma TrimTrimmed(s: string)
    requires s == [] || (!IsWhitespace(s[0]) && !IsWhitespace(s[|s| - 1]))
    ensures Trim(s) == s
  {
    if s != [] {
      assert SpaceEnd(s, 0) == 0;
      assert SpaceStart(s, 1, |s|) == |s|;
      assert s[0..|s|] == s;
    }
  }

  /** The words of `s` from position `from` on: the maximal runs of
      non-white-space characters, in order. */
  function WordsFrom(s: string, from: nat): seq<string>
    requires from <= |s|
    decreases |s| - from
  {
    var start := SpaceEnd(s, from);
    if start == |s| then []
    else
      var end := WordEnd(s, start);
      [s[start..end]] + WordsFrom(s, end)
  }

  /** On a trimmed, non-empty line this is `line.split(/\s+/)`: every piece
      is a non-empty run without white space. */
  function Words(s: string): (ws: seq<string>)
    ensures forall i :: 0 <= i < |ws| ==> |ws[i]| > 0 && !HasWhitespace(ws[i])
  {
    WordsFromAreWords(s, 0);
    WordsFrom(s, 0)
  }

  /** `s` with its white space removed. */
  function Squeeze(s: string): string {
    if |s| == 0 then ""
    else if IsWhitespace(s[0]) then Squeeze(s[1..])
    else [s[0]] + Squeeze(s[1..])
  }

  function Concat(ws: seq<string>): string {
    if |ws| == 0 then "" else ws[0] + Concat(ws[1..])
  }

  lemma {:induction false} SqueezeAppend(a: string, b: string)
    ensures Squeeze(a + b) == Squeeze(a) + Squeeze(b)
  {
    if |a| == 0 {
      assert a + b == b;
    } else {
      assert (a + b)[1..] == a[1..] + b;
      SqueezeAppend(a[1..], b);
    }
  }

  lemma {:induction false} SqueezeSpaces(s: string)
    requires forall i :: 0 <= i < |s| ==> IsWhitespace(s[i])
    ensures Squeeze(s) == ""
  {
    if |s| > 0 {
      SqueezeSpaces(s[1..]);
    }
  }

  lemma {:induction false} SqueezeWord(s: string)
    requires !HasWhitespace(s)
    ensures Squeeze(s) == s
  {
    if |s| > 0 {
      assert !IsWhitespace(s[0]);
      assert !HasWhitespace(s[1..]) by {
        forall i | 0 <= i < |s[1..]| ensures !IsWhitespace(s[1..][i]) {
          assert s[1..][i] == s[i + 1];
        }
      }
      SqueezeWord(s[1..]);
      assert s == [s[0]] + s[1..];
    }
  }

  /** Trimming removes white space only, and leaves nothing exactly when
      there was nothing else. */
  lemma TrimKeepsText(s: string)
    ensures Squeeze(Trim(s)) == Squeeze(s)
    ensures Trim(s) == [] <==> forall i :: 0 <= i < |s| ==> IsWhitespace(s[i])
  {
    var lead := SpaceEnd(s, 0);
    SpaceEndSkips(s, 0);
    if lead == |s| {
      SqueezeSpaces(s);
    } else {
      var j := SpaceStart(s, lead + 1, |s|);
      SpaceStartSkips(s, lead + 1, |s|);
      assert Trim(s) == s[lead..j];
      SqueezeAround(s, lead, j);
    }
  }

  /** Squeezing ignores white space before `lead` and from `j` on. */
  lemma SqueezeAround(s: string, lead: nat, j: nat)
    requires lead <= j <= |s|
    requires forall i :: 0 <= i < lead ==> IsWhitespace(s[i])
    requires forall i :: j <= i < |s| ==> IsWhitespace(s[i])
    ensures Squeeze(s) == Squeeze(s[lead..j])
  {
    assert s[0..] == s;
    SqueezeSkips(s, 0, lead);
    SqueezeTrailing(s, lead, j);
  }

  /** Squeezing from `from` ignores white space from `j` on. */
  lemma SqueezeTrailing(s: string, from: nat, j: nat)
    requires from <= j <= |s|
    requires forall i :: j <= i < |s| ==> IsWhitespace(s[i])
    ensures Squeeze(s[from..]) == Squeeze(s[from..j])
  {
    var post := s[j..];
    assert forall i :: 0 <= i < |post| ==> post[i] == s[j + i];
    SqueezeSpaces(post);
    assert s[from..] == s[from..j] + post;
    SqueezeAppend(s[from..j], post);
  }

  /** Trimming cuts out one slice of the text, with nothing but white space
      before and after it. */
  lemma TrimSlice(s: string)
    ensures exists i, j :: 0 <= i <= j <= |s| && Trim(s) == s[i..j]
              && (forall k :: 0 <= k < i ==> IsWhitespace(s[k]))
              && (forall k :: j <= k < |s| ==> IsWhitespace(s[k]))
  {
    var lead := SpaceEnd(s, 0);
    SpaceEndSkips(s, 0);
    if lead == |s| {
      assert Trim(s) == s[|s|..|s|];
    } else {
      var j := SpaceStart(s, lead + 1, |s|);
      SpaceStartSkips(s, lead + 1, |s|);
      assert Trim(s) == s[lead..j];
    }
  }

  /** Every word is non-empty and free of white space. */
  lemma {:induction false} WordsFromAreWords(s: string, from: nat)
    requires from <= |s|
    ensures forall w :: w in WordsFrom(s, from) ==> |w| > 0 && !HasWhitespace(w)
    decreases |s| - from
  {
    var start := SpaceEnd(s, from);
    if start < |s| {
      var end := WordEnd(s, start);
      WordEndSkips(s, start);
      var w := s[start..end];
      assert !HasWhitespace(w) by {
        forall i | 0 <= i < |w| ensures !IsWhitespace(w[i]) {
          assert w[i] == s[start + i];
        }
      }
      WordsFromAreWords(s, end);
    }
  }

  lemma {:induction false} WordsFromKeepText(s: string, from: nat)
    requires from <= |s|
    ensures Concat(WordsFrom(s, from)) == Squeeze(s[from..])
    decreases |s| - from
  {
    var start := SpaceEnd(s, from);
    SpaceEndSkips(s, from);
    SqueezeSkips(s, from, start);
    if start < |s| {
      var end := WordEnd(s, start);
      WordEndSkips(s, start);
      SqueezeWordAt(s, start, end);
      WordsFromKeepText(s, end);
      var rest := WordsFrom(s, end);
      assert WordsFrom(s, from) == [s[start..end]] + rest;
      assert ([s[start..end]] + rest)[1..] == rest;
    }
  }

  /** Squeezing from `from` ignores the white space up to `start`. */
  lemma SqueezeSkips(s: string, from: nat, start: nat)
    requires from <= start <= |s|
    requires forall i :: from <= i < start ==> IsWhitespace(s[i])
    ensures Squeeze(s[from..]) == Squeeze(s[start..])
  {
    var pre := s[from..start];
    assert forall i :: 0 <= i < |pre| ==> pre[i] == s[from + i];
    SqueezeSpaces(pre);
    assert s[from..] == pre + s[start..];
    SqueezeAppend(pre, s[start..]);
  }

  /** Squeezing from a word's start keeps the word and goes on after it. */
  lemma SqueezeWordAt(s: string, start: nat, end: nat)
    requires start <= end <= |s|
    requires forall i :: start <= i < end ==> !IsWhitespace(s[i])
    ensures Squeeze(s[start..]) == s[start..end] + Squeeze(s[end..])
  {
    var w := s[start..end];
    assert forall i :: 0 <= i < |w| ==> w[i] == s[start + i];
    SqueezeWord(w);
    assert s[start..] == w + s[end..];
    SqueezeAppend(w, s[end..]);
  }

  /** The words keep every non-white-space character of the line, in order,
      and nothing else. */
  lemma WordsKeepText(s: string)
    ensures Concat(Words(s)) == Squeeze(s)
  {
    WordsFromKeepText(s, 0);
    assert s[0..] == s;
  }

  /** A line with some non-white-space character has at least one word, and
      a line of white space has none. */
  lemma WordsNonEmpty(s: string)
    ensures Words(s) == [] <==> forall i :: 0 <= i < |s| ==> IsWhitespace(s[i])
  {
    SpaceEndSkips(s, 0);
  }

  // ---------------------------------------------------------------------
  // Where the words sit

  /** White-space gaps around the words: one more gap than words, every
      gap made of white space only, and every gap between two words
      non-empty. */
  predicate Spacing(gaps: seq<string>, words: seq<string>) {
    |gaps| == |words| + 1
    && (forall i, k :: 0 <= i < |gaps| && 0 <= k < |gaps[i]| ==> IsWhitespace(gaps[i][k]))
    && (forall i :: 0 < i < |words| ==> gaps[i] != [])
  }

  /** `gaps[0] + words[0] + gaps[1] + ... + words[n-1] + gaps[n]`. */
  function Interleave(gaps: seq<string>, words: seq<string>): string
    requires |gaps| == |words| + 1
    decreases |words|
  {
    if |words| == 0 then gaps[0]
    else gaps[0] + words[0] + Interleave(gaps[1..], words[1..])
  }

  /** The gaps `WordsFrom` skips over. */
  function GapsFrom(s: string, from: nat): seq<string>
    requires from <= |s|
    decreases |s| - from
  {
    var start := SpaceEnd(s, from);
    if start == |s| then [s[from..]]
    else [s[from..start]] + GapsFrom(s, WordEnd(s, start))
  }

  lemma SpacingCons(g: string, w: string, gaps: seq<string>, words: seq<string>)
    requires Spacing(gaps, words)
    requires forall k :: 0 <= k < |g| ==> IsWhitespace(g[k])
    requires |words| > 0 ==> gaps[0] != []
    ensures Spacing([g] + gaps, [w] + words)
    ensures Interleave([g] + gaps, [w] + words) == g + w + Interleave(gaps, words)
  {
    var gs := [g] + gaps;
    assert gs[1..] == gaps && ([w] + words)[1..] == words;
    forall i, k | 0 <= i < |gs| && 0 <= k < |gs[i]| ensures IsWhitespace(gs[i][k]) {
      if i > 0 {
        assert gs[i] == gaps[i - 1];
      }
    }
    forall i | 0 < i < |words| + 1 ensures gs[i] != [] {
      assert gs[i] == gaps[i - 1];
    }
  }

  /** The white space `SpaceEnd` skips, as one slice. */
  lemma GapIsSpace(s: string, from: nat)
    requires from <= |s|
    ensures forall k :: 0 <= k < SpaceEnd(s, from) - from ==> IsWhitespace(s[from..SpaceEnd(s, from)][k])
  {
    var g := s[from..SpaceEnd(s, from)];
    SpaceEndSkips(s, from);
    forall k | 0 <= k < |g| ensures IsWhitespace(g[k]) {
      assert g[k] == s[from + k];
    }
  }

  /** After a word, the next word is at least one white-space character
      away. */
  lemma GapBeforeWord(s: string, end: nat)
    requires end <= |s| && (end == |s| || IsWhitespace(s[end]))
    ensures |WordsFrom(s, end)| > 0 ==> SpaceEnd(s, end) > end
  {
  }

  lemma {:induction false} GapsFromLayout(s: string, from: nat)
    requires from <= |s|
    ensures Spacing(GapsFrom(s, from), WordsFrom(s, from))
    ensures Interleave(GapsFrom(s, from), WordsFrom(s, from)) == s[from..]
    ensures GapsFrom(s, from)[0] == s[from..SpaceEnd(s, from)]
    decreases |s| - from
  {
    var start := SpaceEnd(s, from);
    var g := s[from..start];
    GapIsSpace(s, from);
    if start < |s| {
      var end := WordEnd(s, start);
      GapsFromLayout(s, end);
      var rest := GapsFrom(s, end);
      var restWords := WordsFrom(s, end);
      GapBeforeWord(s, end);
      SpacingCons(g, s[start..end], rest, restWords);
      SliceSplit(s, from, start, end);
    }
  }

  /** A suffix cut at two points. */
  lemma SliceSplit(s: string, i: nat, j: nat, k: nat)
    requires i <= j <= k <= |s|
    ensures s[i..] == s[i..j] + s[j..k] + s[k..]
  {
    assert s[i..] == s[i..j] + s[j..];
    assert s[j..] == s[j..k] + s[k..];
  }

  /** The words and the white space between them make up the whole line,
      so the words are exactly its maximal runs of non-white-space
      characters, in order. */
  lemma WordsLayout(s: string)
    ensures exists gaps :: Spacing(gaps, Words(s)) && Interleave(gaps, Words(s)) == s
  {
    GapsFromLayout(s, 0);
    assert s[0..] == s;
    var gaps := GapsFrom(s, 0);
    assert Spacing(gaps, Words(s)) && Interleave(gaps, Words(s)) == s;
  }
}
