/** getSyllables: a word cut into syllables. Every vowel is a nucleus, except
    that a vowel pair at the start or at the end of the word counts as one;
    the consonants between two nuclei are halved, the first half (by integer
    division) closing the syllable before, the rest with a final ь opening the
    syllable after. дж is one letter j while the word is cut. */
module Syllables {
  import opened Wrappers
  import opened JavaText
  import opened Letters

  /** The positions of the vowels of w from position from on, in order */
  function VowelPositions(w: String, from: nat): (p: seq<nat>)
    ensures forall k :: 0 <= k < |p| ==> from <= p[k] < |w| && IsVowel(w[p[k]])
    ensures forall k, l :: 0 <= k < l < |p| ==> p[k] < p[l]
    decreases |w| - from
  {
    if from >= |w| then []
    else if IsVowel(w[from]) then [from] + VowelPositions(w, from + 1)
    else VowelPositions(w, from + 1)
  }

  /** Every vowel of w from position from on has its position listed. */
  lemma {:induction false} VowelPositionsAll(w: String, from: nat)
    ensures forall j :: from <= j < |w| && IsVowel(w[j]) ==> j in VowelPositions(w, from)
    decreases |w| - from
  {
    if from < |w| {
      VowelPositionsAll(w, from + 1);
    }
  }

  /** Positions in w, strictly increasing */
  predicate Increasing(w: String, v: seq<nat>) {
    forall k :: 0 <= k < |v| ==> v[k] < |w| && (k > 0 ==> v[k - 1] < v[k])
  }

  /** The vowel positions with the first one dropped when the word starts with
      two vowels (the second position is then 1) */
  function FrontFolded(w: String): (v: seq<nat>)
    ensures forall k :: 0 <= k < |v| ==> v[k] < |w| && IsVowel(w[v[k]])
    ensures forall k, l :: 0 <= k < l < |v| ==> v[k] < v[l]
  {
    var v0 := VowelPositions(w, 0);
    if |v0| >= 2 && v0[1] == 1 then v0[1..] else v0
  }

  /** The vowel positions with a leading vowel pair and a trailing vowel pair
      each folded into one nucleus; the second-to-last letter of a word shorter
      than two letters, and the last nucleus of none, do not exist */
  function Nuclei(w: String): (r: Result<seq<nat>>)
    ensures r.Ok? ==> Increasing(w, r.value)
  {
    var v1 := FrontFolded(w);
    if |w| < 2 then OutOfBounds
    else if IsVowel(w[|w| - 2]) && IsVowel(w[|w| - 1]) then
      if |v1| == 0 then OutOfBounds else Ok(v1[..|v1| - 1])
    else Ok(v1)
  }

  /** The consonants before nucleus i (or after the last one, for i == |v|) */
  function Gap(w: String, v: seq<nat>, i: nat): String
    requires Increasing(w, v) && |v| > 0 && i <= |v|
  {
    if i == 0 then w[..v[0]]
    else if i < |v| then w[v[i - 1] + 1..v[i]]
    else w[v[|v| - 1] + 1..]
  }

  /** How many letters of gap i close the syllable before it: half of them by
      integer division, all of them after the last nucleus, not counting a
      final ь; none of the gap before the first nucleus */
  function Head(w: String, v: seq<nat>, i: nat): (h: nat)
    requires Increasing(w, v) && |v| > 0 && i <= |v|
    ensures h <= |Gap(w, v, i)|
  {
    if i == 0 then 0 else HeadLength(Gap(w, v, i), i == |v|)
  }

  /** The letters of gap g that close the syllable before it */
  function HeadLength(g: String, last: bool): (h: nat)
    ensures h <= |g|
  {
    var len := if |g| > 0 && g[|g| - 1] == 'ь' then |g| - 1 else |g|;
    if last then len else len / 2
  }

  /** Syllable i, with j still standing for дж: what gap i keeps, nucleus i,
      and the head of gap i + 1 */
  function Syllable(w: String, v: seq<nat>, i: nat): String
    requires Increasing(w, v) && i < |v|
  {
    Gap(w, v, i)[Head(w, v, i)..] + [w[v[i]]] + Gap(w, v, i + 1)[..Head(w, v, i + 1)]
  }

  /** All the gaps of w around the nuclei v */
  function Gaps(w: String, v: seq<nat>): seq<String>
    requires Increasing(w, v) && |v| > 0
  {
    seq(|v| + 1, k requires 0 <= k <= |v| => Gap(w, v, k))
  }

  /** All the syllables of w around the nuclei v, дж written out again */
  function Syllables(w: String, v: seq<nat>): seq<String>
    requires Increasing(w, v) && |v| > 0
  {
    SyllablesUpTo(w, v, |v|)
  }

  /** The first k syllables of w around the nuclei v, дж written out again */
  function SyllablesUpTo(w: String, v: seq<nat>, k: nat): (s: seq<String>)
    requires Increasing(w, v) && k <= |v|
    ensures |s| == k
  {
    if k == 0 then [] else SyllablesUpTo(w, v, k - 1) + [Replace(Syllable(w, v, k - 1), "j", "дж")]
  }

  /** The syllables of one lowercase part of a word */
  function SyllabifyPart(w: String): Result<seq<String>> {
    var v :- Nuclei(w);
    if |v| == 0 then OutOfBounds else Ok(Syllables(w, v))
  }

  /** getSyllables: nothing for several words; the syllables of the parts
      around the first - one after the other; otherwise the syllables of the
      lowercased word with дж as j */
  function Syllabify(word: String): Result<seq<String>>
    decreases |word|
  {
    if ' ' in word then Ok([])
    else if '-' in word then
      var k := IndexOfChar(word, '-', 0);
      var a :- Syllabify(word[..k]);
      var b :- Syllabify(word[k + 1..]);
      Ok(a + b)
    else SyllabifyPart(Replace(ToLower(word), "дж", "j"))
  }

  /** getSyllables, with the vowel list, the array of clusters it cuts in
      place and the array of syllables it fills */
  method GetSyllables(word: String) returns (r: Result<seq<String>>)
    ensures r == Syllabify(word)
    decreases |word|
  {
    if ' ' in word {
      return Ok([]);
    }
    if '-' in word {
      var k := IndexOfChar(word, '-', 0);
      var syllables1 := GetSyllables(word[..k]);
      if syllables1.OutOfBounds? {
        return OutOfBounds;
      }
      var syllables2 := GetSyllables(word[k + 1..]);
      if syllables2.OutOfBounds? {
        return OutOfBounds;
      }
      var bigger := Concatenated(syllables1.value, syllables2.value);
      return Ok(bigger);
    }
    var w := Replace(ToLower(word), "дж", "j");
    r := CutPart(w);
  }

  /** getSyllables on one lowercase part with дж as j: the nuclei, then the cut */
  method CutPart(w: String) returns (r: Result<seq<String>>)
    ensures r == SyllabifyPart(w)
  {
    var vowelIndexes := VowelList(w);
    if |vowelIndexes| >= 2 && vowelIndexes[1] == 1 {
      vowelIndexes := vowelIndexes[1..];
    }
    if |w| < 2 {
      return OutOfBounds;
    }
    if IsVowel(w[|w| - 2]) && IsVowel(w[|w| - 1]) {
      if |vowelIndexes| == 0 {
        return OutOfBounds;
      }
      vowelIndexes := vowelIndexes[..|vowelIndexes| - 1];
    }
    if |vowelIndexes| == 0 {
      return OutOfBounds;
    }
    assert Nuclei(w) == Ok(vowelIndexes);
    var syllables := Cut(w, vowelIndexes);
    return Ok(syllables);
  }

  /** The loop collecting the positions of the vowels of w */
  method VowelList(w: String) returns (vowelIndexes: seq<nat>)
    ensures vowelIndexes == VowelPositions(w, 0)
  {
    vowelIndexes := [];
    assert vowelIndexes + VowelPositions(w, 0) == VowelPositions(w, 0);
    for i := 0 to |w|
      invariant VowelPositions(w, 0) == vowelIndexes + VowelPositions(w, i)
    {
      if IsVowel(w[i]) {
        assert VowelPositions(w, 0) == (vowelIndexes + [i]) + VowelPositions(w, i + 1);
        vowelIndexes := vowelIndexes + [i];
      }
    }
  }

  /** The copy of the two parts' syllables into one bigger array */
  method Concatenated(a: seq<String>, b: seq<String>) returns (c: seq<String>)
    ensures c == a + b
  {
    var bigger := new String[|a| + |b|];
    for i := 0 to |a|
      invariant forall k :: 0 <= k < i ==> bigger[k] == a[k]
    {
      bigger[i] := a[i];
    }
    for i := 0 to |b|
      invariant forall k :: 0 <= k < |a| ==> bigger[k] == a[k]
      invariant forall k :: 0 <= k < i ==> bigger[|a| + k] == b[k]
    {
      bigger[i + |a|] := b[i];
    }
    c := bigger[..];
    forall k | 0 <= k < |c|
      ensures c[k] == (a + b)[k]
    {
      if k >= |a| {
        assert c[k] == bigger[|a| + (k - |a|)];
      }
    }
  }

  /** The split of the cluster after a nucleus: its letters before a final ь,
      halved unless it is the last cluster */
  method SplitIndex(next: String, last: bool) returns (splitIndex: nat)
    ensures splitIndex == HeadLength(next, last)
  {
    var length := |next|;
    if length > 0 && next[length - 1] == 'ь' {
      length := length - 1;
    }
    splitIndex := length / 2;
    if last {
      splitIndex := length;
    }
  }

  /** The array of the clusters between the nuclei v of w */
  method ClusterArray(w: String, v: seq<nat>) returns (clusters: array<String>)
    requires Increasing(w, v) && |v| > 0
    ensures fresh(clusters) && clusters[..] == Gaps(w, v)
  {
    var n := |v|;
    ghost var gaps := Gaps(w, v);
    clusters := new String[n + 1];
    clusters[0] := w[..v[0]];
    for i := 1 to n
      invariant clusters[..i] == gaps[..i]
    {
      clusters[i] := w[v[i - 1] + 1..v[i]];
    }
    clusters[n] := "";
    if v[n - 1] != |w| - 1 {
      clusters[n] := w[v[n - 1] + 1..];
    }
    assert clusters[..] == gaps;
  }

  /** The cutting loop over the clusters between the nuclei v of w */
  method Cut(w: String, v: seq<nat>) returns (syllables: seq<String>)
    requires Increasing(w, v) && |v| > 0
    ensures syllables == Syllables(w, v)
  {
    var n := |v|;
    ghost var gaps := Gaps(w, v);
    var clusters := ClusterArray(w, v);
    var out := new String[n];
    assert forall k :: 0 <= k <= n ==> clusters[k] == clusters[..][k];
    for i := 0 to n
      invariant clusters[i] == gaps[i][Head(w, v, i)..]
      invariant forall k :: i < k <= n ==> clusters[k] == gaps[k]
      invariant out[..i] == SyllablesUpTo(w, v, i)
    {
      ghost var done := out[..i];
      var syllable := CutSyllable(w, v, clusters, i);
      out[i] := syllable;
      assert out[..i + 1] == done + [syllable];
    }
    assert out[..] == out[..n];
    syllables := out[..];
  }

  /** One turn of the cutting loop: syllable i takes the rest of cluster i,
      nucleus i and the head of cluster i + 1, which keeps its tail */
  method CutSyllable(w: String, v: seq<nat>, clusters: array<String>, i: nat) returns (syllable: String)
    requires Increasing(w, v) && i < |v| && clusters.Length == |v| + 1
    requires clusters[i] == Gap(w, v, i)[Head(w, v, i)..] && clusters[i + 1] == Gap(w, v, i + 1)
    modifies clusters
    ensures syllable == Replace(Syllable(w, v, i), "j", "дж")
    ensures clusters[i + 1] == Gap(w, v, i + 1)[Head(w, v, i + 1)..]
    ensures forall k :: 0 <= k < clusters.Length && k != i + 1 ==> clusters[k] == old(clusters[k])
  {
    syllable := clusters[i];
    syllable := syllable + [w[v[i]]];
    var next := clusters[i + 1];
    var splitIndex := SplitIndex(next, i == |v| - 1);
    SyllableStep(w, v, i, clusters[i], next, splitIndex);
    syllable := syllable + next[..splitIndex];
    clusters[i + 1] := next[splitIndex..];
    syllable := Replace(syllable, "j", "дж");
  }

  /** Syllable i is the rest of its own gap, its nucleus and the head of the
      next gap, the head being the split of that gap */
  lemma SyllableStep(w: String, v: seq<nat>, i: nat, rest: String, next: String, splitIndex: nat)
    requires Increasing(w, v) && i < |v|
    requires rest == Gap(w, v, i)[Head(w, v, i)..] && next == Gap(w, v, i + 1)
    requires splitIndex == HeadLength(next, i == |v| - 1)
    ensures splitIndex == Head(w, v, i + 1) <= |next|
    ensures rest + [w[v[i]]] + next[..splitIndex] == Syllable(w, v, i)
  {
  }

  /** Dropping the first of increasing positions drops exactly that position. */
  lemma DropFirst(s: seq<nat>)
    requires |s| > 0 && forall k, l :: 0 <= k < l < |s| ==> s[k] < s[l]
    ensures forall j :: j in s[1..] <==> j in s && j != s[0]
  {
    forall j | j in s && j != s[0] ensures j in s[1..] {
      var a :| 0 <= a < |s| && s[a] == j;
      assert s[1..][a - 1] == j;
    }
  }

  /** Dropping the last of increasing positions drops exactly that position. */
  lemma DropLast(s: seq<nat>)
    requires |s| > 0 && forall k, l :: 0 <= k < l < |s| ==> s[k] < s[l]
    ensures forall j :: j in s[..|s| - 1] <==> j in s && j != s[|s| - 1]
  {
    forall j | j in s && j != s[|s| - 1] ensures j in s[..|s| - 1] {
      var a :| 0 <= a < |s| && s[a] == j;
      assert s[..|s| - 1][a] == j;
    }
  }

  /** The second vowel position is 1 exactly when the word starts with two vowels. */
  lemma FrontPair(w: String)
    requires |w| >= 2
    ensures var v0 := VowelPositions(w, 0);
      (|v0| >= 2 && v0[1] == 1) <==> IsVowel(w[0]) && IsVowel(w[1])
  {
    var v0 := VowelPositions(w, 0);
    if |v0| >= 2 && v0[1] == 1 {
      assert v0[0] < v0[1];
    }
  }

  /** The last vowel position is the last letter when that letter is a vowel. */
  lemma LastVowel(w: String, s: seq<nat>)
    requires |w| > 0 && IsVowel(w[|w| - 1])
    requires forall k :: 0 <= k < |s| ==> s[k] < |w|
    requires forall k, l :: 0 <= k < l < |s| ==> s[k] < s[l]
    requires |w| - 1 in s
    ensures |s| > 0 && s[|s| - 1] == |w| - 1
  {
    var a :| 0 <= a < |s| && s[a] == |w| - 1;
    assert forall k :: 0 <= k < |s| ==> s[k] <= s[|s| - 1];
    assert s[a] <= s[|s| - 1];
  }

  /** After the front folding, the positions left are those of the vowels
      except the first letter when the second letter is a vowel too. */
  lemma FrontFoldedSpec(w: String)
    requires |w| >= 2
    ensures forall j :: j in FrontFolded(w) <==> 0 <= j < |w| && IsVowel(w[j]) && !(j == 0 && IsVowel(w[1]))
  {
    var v0 := VowelPositions(w, 0);
    VowelPositionsAll(w, 0);
    FrontPair(w);
    if |v0| >= 2 && v0[1] == 1 {
      DropFirst(v0);
      assert v0[0] == 0;
    }
  }

  /** Dropping the last of increasing positions that include the last letter
      drops exactly the last letter. */
  lemma BackFolded(w: String, s: seq<nat>)
    requires |w| > 0 && IsVowel(w[|w| - 1])
    requires forall k :: 0 <= k < |s| ==> s[k] < |w|
    requires forall k, l :: 0 <= k < l < |s| ==> s[k] < s[l]
    requires |w| - 1 in s
    ensures |s| > 0 && forall j :: j in s[..|s| - 1] <==> j in s && j != |w| - 1
  {
    LastVowel(w, s);
    DropLast(s);
  }

  /** Position j of w is a syllable nucleus: a vowel, but not the first letter
      when the second is a vowel too, nor the last letter when the one before
      it is a vowel too */
  predicate NucleusAt(w: String, j: int)
    requires |w| >= 2
  {
    0 <= j < |w| && IsVowel(w[j]) && !(j == 0 && IsVowel(w[1])) && !(j == |w| - 1 && IsVowel(w[|w| - 2]))
  }

  lemma FrontFoldedAt(w: String, j: int)
    requires |w| >= 2
    ensures j in FrontFolded(w) <==> 0 <= j < |w| && IsVowel(w[j]) && !(j == 0 && IsVowel(w[1]))
  {
    FrontFoldedSpec(w);
  }

  /** A word of two letters or more has its nuclei, and they are exactly the
      positions NucleusAt describes. */
  lemma NucleiSpec(w: String)
    requires |w| >= 2
    ensures Nuclei(w).Ok?
    ensures forall j :: j in Nuclei(w).value <==> NucleusAt(w, j)
  {
    if IsVowel(w[|w| - 2]) && IsVowel(w[|w| - 1]) {
      BackNuclei(w);
    } else {
      assert Nuclei(w) == Ok(FrontFolded(w));
      forall j ensures j in Nuclei(w).value <==> NucleusAt(w, j) {
        FrontFoldedAt(w, j);
      }
    }
  }

  lemma BackNuclei(w: String)
    requires |w| >= 2 && IsVowel(w[|w| - 2]) && IsVowel(w[|w| - 1])
    ensures Nuclei(w).Ok?
    ensures forall j :: j in Nuclei(w).value <==> NucleusAt(w, j)
  {
    var v1 := FrontFolded(w);
    var n := |w| - 1;
    FrontFoldedAt(w, n);
    BackFolded(w, v1);
    var v := v1[..|v1| - 1];
    assert Nuclei(w) == Ok(v);
    forall j ensures j in v <==> NucleusAt(w, j) {
      FrontFoldedAt(w, j);
    }
  }

  /** The first k syllables, with j still standing for дж, one after the other */
  function Spelled(w: String, v: seq<nat>, k: nat): String
    requires Increasing(w, v) && k <= |v|
    decreases k
  {
    if k == 0 then [] else Spelled(w, v, k - 1) + Syllable(w, v, k - 1)
  }

  /** The syllables before nucleus k spell the word up to that nucleus and the
      head of the gap after it. */
  lemma {:induction false} SpelledPrefix(w: String, v: seq<nat>, k: nat)
    requires Increasing(w, v) && 0 < k <= |v|
    ensures Spelled(w, v, k) == w[..v[k - 1] + 1] + Gap(w, v, k)[..Head(w, v, k)]
    decreases k
  {
    if k == 1 {
      assert w[..v[0] + 1] == w[..v[0]] + [w[v[0]]];
    } else {
      var m := k - 1;
      SpelledPrefix(w, v, m);
      var a, g, h := w[..v[m - 1] + 1], Gap(w, v, m), Head(w, v, m);
      var tail := Gap(w, v, k)[..Head(w, v, k)];
      var syllable := Syllable(w, v, m);
      assert syllable == g[h..] + [w[v[m]]] + tail;
      assert Spelled(w, v, k) == (a + g[..h]) + syllable;
      SliceJoin(w, v[m - 1] + 1, v[m]);
      StepJoin(a, g, h, w[v[m]], tail, w[..v[m] + 1]);
    }
  }

  /** Cutting g after h letters between a and the letter x keeps the letters
      and their order. */
  lemma StepJoin(a: String, g: String, h: nat, x: char, tail: String, r: String)
    requires h <= |g| && a + g + [x] == r
    ensures (a + g[..h]) + (g[h..] + [x] + tail) == r + tail
  {
    assert g[..h] + g[h..] == g;
  }

  /** Cutting g after h letters and gluing it back between a and b */
  lemma Regroup(a: String, g: String, h: nat, b: String)
    requires h <= |g|
    ensures (a + g[..h]) + (g[h..] + b) == a + g + b
  {
    assert g[..h] + g[h..] == g;
  }

  /** The letters before b, the gap from a to b and the letter at b */
  lemma SliceJoin(w: String, a: nat, b: nat)
    requires a <= b < |w|
    ensures w[..a] + w[a..b] + [w[b]] == w[..b + 1]
  {
  }

  /** When the last gap does not end in ь, the syllables spell the word. */
  lemma SpelledWhole(w: String, v: seq<nat>)
    requires Increasing(w, v) && |v| > 0 && |w| > 0 && w[|w| - 1] != 'ь'
    ensures Spelled(w, v, |v|) == w
  {
    SpelledPrefix(w, v, |v|);
    LastHead(w, v);
    LastJoin(w, v);
  }

  /** The last gap closes the last syllable whole when the word does not end in ь. */
  lemma LastHead(w: String, v: seq<nat>)
    requires Increasing(w, v) && |v| > 0 && |w| > 0 && w[|w| - 1] != 'ь'
    ensures Head(w, v, |v|) == |Gap(w, v, |v|)|
  {
    var g := Gap(w, v, |v|);
    assert |g| > 0 ==> g[|g| - 1] == w[|w| - 1];
  }

  /** The word up to its last nucleus, then the last gap */
  lemma LastJoin(w: String, v: seq<nat>)
    requires Increasing(w, v) && |v| > 0
    ensures w[..v[|v| - 1] + 1] + Gap(w, v, |v|) == w
  {
  }

  /** The syllables one after the other */
  function Concat(ss: seq<String>): String {
    if |ss| == 0 then [] else Concat(ss[..|ss| - 1]) + ss[|ss| - 1]
  }

  /** The first k syllables as cut, with дж written back for j, spell the
      first k syllables of the word with дж written back. */
  lemma {:induction false} SyllablesSpell(w: String, v: seq<nat>, k: nat)
    requires Increasing(w, v) && k <= |v|
    ensures Concat(SyllablesUpTo(w, v, k)) == Replace(Spelled(w, v, k), "j", "дж")
    decreases k
  {
    if k > 0 {
      SyllablesSpell(w, v, k - 1);
      ReplaceCharConcat(Spelled(w, v, k - 1), Syllable(w, v, k - 1), 'j', "дж");
      assert SyllablesUpTo(w, v, k)[..k - 1] == SyllablesUpTo(w, v, k - 1);
    }
  }

  /** getSyllables on one part of a word: a word of at least two letters not
      ending in ь, with at least one nucleus left after the folding, is cut
      into one syllable per nucleus, and the syllables spell the word with
      дж written back for j. */
  lemma CutSpellsWord(w: String)
    requires |w| >= 2 && w[|w| - 1] != 'ь'
    requires Nuclei(w).Ok? && |Nuclei(w).value| > 0
    ensures SyllabifyPart(w).Ok?
    ensures |SyllabifyPart(w).value| == |Nuclei(w).value|
    ensures Concat(SyllabifyPart(w).value) == Replace(w, "j", "дж")
  {
    var v := Nuclei(w).value;
    SyllablesSpell(w, v, |v|);
    SpelledWhole(w, v);
  }

  /** getSyllables on a whole lowercase word without a space, a hyphen or a
      Latin j: once дж is held as j, a word of two letters or more not ending
      in ь and keeping a nucleus gets one syllable per nucleus, and the
      syllables spell the word. */
  lemma SyllabifySpellsWord(word: String)
    requires Lowercase(word) && ' ' !in word && '-' !in word && 'j' !in word
    requires var w := Replace(word, "дж", "j");
      |w| >= 2 && w[|w| - 1] != 'ь' && Nuclei(w).Ok? && |Nuclei(w).value| > 0
    ensures var w := Replace(word, "дж", "j");
      Syllabify(word).Ok? && |Syllabify(word).value| == |Nuclei(w).value|
      && Concat(Syllabify(word).value) == word
  {
    LowercaseKept(word);
    var w := Replace(word, "дж", "j");
    assert Syllabify(word) == SyllabifyPart(w);
    CutSpellsWord(w);
    ReplaceInverse(word, "дж", 'j');
  }
}
