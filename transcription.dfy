/** What the three toPhonetic overloads compute, as functions of the settings,
    the flags the converter holds when the call starts and the arguments. Each
    returns its result, or the exception that escapes it, together with the
    flags as the call leaves them: the overloads call each other and talk
    through the passage, devoice and dashed fields. */
module Transcription {
  import opened Wrappers
  import opened JavaText
  import opened Letters
  import opened Phonotation
  import opened Syllables
  import opened Stress
  import opened Words
  import opened Sandhi

  /** The fields the overloads change as they run */
  datatype Flags = Flags(passage: bool, devoice: bool, dashed: bool)

  /** The outcome of a call and the flags after it */
  datatype Run<T> = Run(result: Result<T>, flags: Flags)

  /** toPhonetic(cyrillic)[0], the first variant */
  function FirstOf(r: Result<seq<String>>): Result<String> {
    if r.Ok? && |r.value| > 0 then Ok(r.value[0]) else OutOfBounds
  }

  function First(r: Run<seq<String>>): Run<String> {
    Run(FirstOf(r.result), r.flags)
  }

  /** The one-stress overload hands the word to the variants overload: with
      a space, or a stress index that is neither -1 nor a vowel of the word */
  predicate HandedOn(c: String, idx: int) {
    ' ' in c || (idx != -1 && !(0 <= idx < |c| && IsVowel(c[idx])))
  }

  /** The two-stress overload hands the word on unless both indexes are vowels */
  predicate HandedOn2(c: String, s1: int, s2: int) {
    ' ' in c || !(0 <= s1 < |c| && 0 <= s2 < |c| && IsVowel(c[s1]) && IsVowel(c[s2]))
  }

  /** The parts of a split that the passage loop walks over: each one, and
      each two neighbours with the space between them, shorter than the text */
  predicate Parts(c: String, words: seq<String>) {
    (forall k :: 0 <= k < |words| ==> |words[k]| < |c|)
    && forall k :: 0 <= k < |words| - 1 ==> |words[k]| + |words[k + 1]| < |c|
  }

  lemma SplitWords(c: String)
    requires ' ' in c
    ensures Parts(c, Split(c, ' '))
  {
    var words := Split(c, ' ');
    SplitParts(c, ' ');
    forall k | 0 <= k < |words| ensures |words[k]| < |c| {
      assert words[k] in words;
    }
    forall k | 0 <= k < |words| - 1 ensures |words[k]| + |words[k + 1]| < |c| {
      SplitNeighbours(c, ' ', k);
    }
  }

  /** toPhonetic(String, int), lines 78-227 */
  function OneStress(cfg: Config, f: Flags, c: String, idx: int): Run<String>
    decreases |c|, if HandedOn(c, idx) then 6 else 1, 0
  {
    if ' ' in c then First(Variants(cfg, f, c))
    else if idx != -1 && !(0 <= idx < |c|) then First(Variants(cfg, f, c))
    else if idx != -1 && !IsVowel(c[idx]) then
      var r := First(Variants(cfg, f, c));
      if r.result.OutOfBounds? then First(Variants(cfg, r.flags, c)) else r
    else if '-' in c then Hyphenated(cfg, f, c, idx)
    else
      var r := Word1(cfg, f.devoice, f.dashed, c, idx);
      if r.Ok? then Run(r, f.(dashed := false)) else Run(r, f)
  }

  /** Lines 107-118: each part around the hyphen transcribed with the one
      stress in the part it falls in */
  function Hyphenated(cfg: Config, f: Flags, c: String, idx: int): Run<String>
    requires '-' in c
    decreases |c|, 0, 0
  {
    var parts := Split(c, '-');
    SplitParts(c, '-');
    if |parts| == 0 then Run(OutOfBounds, f)
    else
      assert parts[0] in parts;
      var stressBefore := idx < |parts[0]|;
      var a := OneStress(cfg, f, parts[0], if stressBefore then idx else -1);
      if a.result.OutOfBounds? then a
      else if |parts| < 2 then Run(OutOfBounds, a.flags)
      else
        assert parts[1] in parts;
        var b := OneStress(cfg, a.flags, parts[1], if stressBefore then -1 else idx - (|parts[0]| + 1));
        if b.result.OutOfBounds? then b
        else Run(Ok(a.result.value + "-" + b.result.value), b.flags)
  }

  /** The one-stress overload splits a hyphenated word as the two-stress
      one does when each part has a stress, with -1 for the part the stress
      is not in. */
  lemma HyphenatedParts(cfg: Config, f: Flags, c: String, idx: int, parts: seq<String>, first: int, second: int)
    requires '-' in c && parts == Split(c, '-') && 0 < |parts|
    requires forall p :: p in parts ==> |p| < |c|
    requires first == (if idx < |parts[0]| then idx else -1)
    requires second == (if idx < |parts[0]| then -1 else idx - (|parts[0]| + 1))
    ensures Hyphenated(cfg, f, c, idx) == EachPart(cfg, f, c, parts, first, second)
  {
  }

  /** toPhonetic(String, int, int, boolean), lines 236-384 */
  function TwoStress(cfg: Config, f: Flags, c: String, s1: int, s2: int, primary: bool): Run<String>
    decreases |c|, if HandedOn2(c, s1, s2) then 6 else 1, 0
  {
    if ' ' in c then First(Variants(cfg, f, c))
    else if !(0 <= s1 < |c|) || !(0 <= s2 < |c|) then First(Variants(cfg, f, c))
    else if !IsVowel(c[s1]) || !IsVowel(c[s2]) then
      var r := First(Variants(cfg, f, c));
      if r.result.OutOfBounds? then First(Variants(cfg, r.flags, c)) else r
    else if '-' in c then Hyphenated2(cfg, f.(dashed := true), c, s1, s2, primary)
    else Run(Word2(cfg, f.devoice, c, s1, s2, primary), f)
  }

  /** Lines 264-289: one stress in each part, or both stresses in one part,
      which then keeps the two-stress overload */
  function Hyphenated2(cfg: Config, f: Flags, c: String, s1: int, s2: int, primary: bool): Run<String>
    requires '-' in c
    decreases |c|, 0, 1
  {
    var larger, smaller := Max(s1, s2), Min(s1, s2);
    var parts := Split(c, '-');
    SplitParts(c, '-');
    if |parts| == 0 then Run(OutOfBounds, f)
    else
      var n := |parts[0]|;
      if smaller < n && larger > n then EachPart(cfg, f, c, parts, smaller, larger - n - 1)
      else if smaller < n then BothBefore(cfg, f, c, parts, s1, s2, primary)
      else BothAfter(cfg, f, c, parts, s1 - n - 1, s2 - n - 1, primary)
  }

  /** Hyphenated2 when splitting at the hyphens leaves no part, as for "-" */
  lemma Hyphenated2None(cfg: Config, f: Flags, c: String, s1: int, s2: int, primary: bool)
    requires '-' in c && |Split(c, '-')| == 0
    ensures Hyphenated2(cfg, f, c, s1, s2, primary) == Run(OutOfBounds, f)
  {
  }

  /** Hyphenated2 with a stress on each side of the first hyphen */
  lemma Hyphenated2Each(cfg: Config, f: Flags, c: String, s1: int, s2: int, primary: bool, parts: seq<String>, n: int, first: int, second: int)
    requires '-' in c && parts == Split(c, '-') && 0 < |parts| && n == |parts[0]|
    requires forall p :: p in parts ==> |p| < |c|
    requires Min(s1, s2) < n < Max(s1, s2) && first == Min(s1, s2) && second == Max(s1, s2) - n - 1
    ensures Hyphenated2(cfg, f, c, s1, s2, primary) == EachPart(cfg, f, c, parts, first, second)
  {
  }

  /** Hyphenated2 with both stresses before the first hyphen */
  lemma Hyphenated2Before(cfg: Config, f: Flags, c: String, s1: int, s2: int, primary: bool, parts: seq<String>, n: int)
    requires '-' in c && parts == Split(c, '-') && 0 < |parts| && n == |parts[0]|
    requires forall p :: p in parts ==> |p| < |c|
    requires Max(s1, s2) <= n && Min(s1, s2) < n
    ensures Hyphenated2(cfg, f, c, s1, s2, primary) == BothBefore(cfg, f, c, parts, s1, s2, primary)
  {
  }

  /** Hyphenated2 with both stresses after the first hyphen */
  lemma Hyphenated2After(cfg: Config, f: Flags, c: String, s1: int, s2: int, primary: bool, parts: seq<String>, n: int, first: int, second: int)
    requires '-' in c && parts == Split(c, '-') && 0 < |parts| && n == |parts[0]|
    requires forall p :: p in parts ==> |p| < |c|
    requires n <= Min(s1, s2) && first == s1 - n - 1 && second == s2 - n - 1
    ensures Hyphenated2(cfg, f, c, s1, s2, primary) == BothAfter(cfg, f, c, parts, first, second, primary)
  {
  }

  /** The smaller and the larger of the two stress indexes */
  function Min(a: int, b: int): int { if a > b then b else a }
  function Max(a: int, b: int): int { if a > b then a else b }

  /** Line 281: the part before the hyphen with the first stress, the part
      after it with the second; the second part must exist */
  function EachPart(cfg: Config, f: Flags, c: String, parts: seq<String>, s1: int, s2: int): Run<String>
    requires 0 < |parts| && forall p :: p in parts ==> |p| < |c|
    decreases |c|, 0, 0
  {
    assert parts[0] in parts;
    var a := OneStress(cfg, f, parts[0], s1);
    if a.result.OutOfBounds? then a
    else if |parts| < 2 then Run(OutOfBounds, a.flags)
    else
      assert parts[1] in parts;
      var b := OneStress(cfg, a.flags, parts[1], s2);
      if b.result.OutOfBounds? then b else Run(Ok(a.result.value + "-" + b.result.value), b.flags)
  }

  /** Line 283 as written: the part after the hyphen with both indexes as
      they are, then the unstressed part before it, in that order */
  function BothBefore(cfg: Config, f: Flags, c: String, parts: seq<String>, s1: int, s2: int, primary: bool): Run<String>
    requires 0 < |parts| && forall p :: p in parts ==> |p| < |c|
    decreases |c|, 0, 0
  {
    if |parts| < 2 then Run(OutOfBounds, f)
    else
      assert parts[0] in parts && parts[1] in parts;
      var a := TwoStress(cfg, f, parts[1], s1, s2, primary);
      if a.result.OutOfBounds? then a
      else
        var b := OneStress(cfg, a.flags, parts[0], -1);
        if b.result.OutOfBounds? then b else Run(Ok(a.result.value + "-" + b.result.value), b.flags)
  }

  /** Lines 284-289: the unstressed part before the hyphen, then the part
      after it with both indexes moved past the hyphen */
  function BothAfter(cfg: Config, f: Flags, c: String, parts: seq<String>, s1: int, s2: int, primary: bool): Run<String>
    requires 0 < |parts| && forall p :: p in parts ==> |p| < |c|
    decreases |c|, 0, 0
  {
    assert parts[0] in parts;
    var a := OneStress(cfg, f, parts[0], -1);
    if a.result.OutOfBounds? then a
    else if |parts| < 2 then Run(OutOfBounds, a.flags)
    else
      assert parts[1] in parts;
      var b := TwoStress(cfg, a.flags, parts[1], s1, s2, primary);
      if b.result.OutOfBounds? then b else Run(Ok(a.result.value + "-" + b.result.value), b.flags)
  }

  /** toPhonetic(String), lines 399-595 without the website */
  function Variants(cfg: Config, f: Flags, cyrillic: String): Run<seq<String>>
    decreases |cyrillic|, 5, 0
  {
    var c := ToLower(cyrillic);
    if ' ' in c then Passaged(cfg, f, c)
    else if |StressIndex(c)| == 1 then OneMarked(cfg, f, c)
    else if |StressIndex(c)| == 2 then TwoMarked(cfg, f, c)
    else Unmarked(cfg, f, c)
  }

  /** The variants overload returns the one transcription it made */
  function Single(t: Run<String>): Run<seq<String>> {
    if t.result.OutOfBounds? then Run(OutOfBounds, t.flags) else Run(Ok([t.result.value]), t.flags)
  }

  /** Lines 405-517: the words of a passage, transcribed one after the other
      with the passage flag set, as one trimmed transcription */
  function Passaged(cfg: Config, f: Flags, c: String): Run<seq<String>>
    requires ' ' in c
    decreases |c|, 4, 0
  {
    var words := Split(c, ' ');
    SplitWords(c);
    var r := Passage(cfg, f.(passage := true), c, words, 0, "");
    if r.result.OutOfBounds? then Run(OutOfBounds, r.flags)
    else Run(Ok([Trim(r.result.value)]), r.flags.(passage := false))
  }

  /** Lines 523-533: one stress mark, removed; the stress is on the letter
      before it, except for a clitic inside a passage */
  function OneMarked(cfg: Config, f: Flags, c: String): Run<seq<String>>
    requires |StressIndex(c)| == 1
    decreases |c|, 4, 0
  {
    StressIndexSpec(c);
    var s := StressIndex(c)[0];
    var d := c[..s] + c[s + 1..];
    if f.passage && d in cfg.clitics then Single(OneStress(cfg, f, d, -1))
    else Single(OneStress(cfg, f, d, s - 1))
  }

  /** Lines 534-545 as written: the first mark is removed, then the letter at
      the second mark's old position of the shortened word, which is the
      letter after the second mark (the call throws when the mark is last);
      the stresses are then taken one letter before each old mark position */
  function TwoMarked(cfg: Config, f: Flags, c: String): Run<seq<String>>
    requires |StressIndex(c)| == 2
    decreases |c|, 4, 0
  {
    StressIndexSpec(c);
    var s0, s1 := StressIndex(c)[0], StressIndex(c)[1];
    var d := c[..s0] + c[s0 + 1..];
    if s1 + 1 > |d| then Run(OutOfBounds, f)
    else
      var e := d[..s1] + d[s1 + 1..];
      Single(TwoStress(cfg, f, e, s0 - 1, s1 - 1, true))
  }

  /** The two branches of TwoMarked, for callers holding the shortened words */
  lemma TwoMarkedShort(cfg: Config, f: Flags, c: String, d: String)
    requires |StressIndex(c)| == 2 && 0 <= StressIndex(c)[0] < |c|
    requires d == c[..StressIndex(c)[0]] + c[StressIndex(c)[0] + 1..]
    requires StressIndex(c)[1] + 1 > |d|
    ensures TwoMarked(cfg, f, c) == Run(OutOfBounds, f)
  {
  }

  lemma TwoMarkedRun(cfg: Config, f: Flags, c: String, d: String, e: String, first: int, second: int)
    requires |StressIndex(c)| == 2 && 0 <= StressIndex(c)[0] < |c|
    requires d == c[..StressIndex(c)[0]] + c[StressIndex(c)[0] + 1..]
    requires 0 <= StressIndex(c)[1] && StressIndex(c)[1] + 1 <= |d|
    requires e == d[..StressIndex(c)[1]] + d[StressIndex(c)[1] + 1..]
    requires first == StressIndex(c)[0] - 1 && second == StressIndex(c)[1] - 1
    ensures TwoMarked(cfg, f, c) == Single(TwoStress(cfg, f, e, first, second, true))
  {
  }

  /** Lines 552-594: no stress mark. A word without vowels, a clitic inside a
      passage, or a word whose final devoicing sandhi turned off, has one
      unstressed transcription; otherwise there is one per vowel */
  function Unmarked(cfg: Config, f: Flags, c: String): Run<seq<String>>
    requires ' ' !in c
    decreases |c|, 4, 0
  {
    var vowelIndexes := VowelPositions(c, 0);
    if (f.passage && c in cfg.clitics) || !f.devoice || |vowelIndexes| == 0 then Single(OneStress(cfg, f, c, -1))
    else Each(cfg, f, c, vowelIndexes, 0, [])
  }

  /** Lines 583-594: one transcription per vowel taken as the stressed one,
      stopping after the first inside a passage */
  function Each(cfg: Config, f: Flags, c: String, vowelIndexes: seq<nat>, i: nat, acc: seq<String>): Run<seq<String>>
    requires ' ' !in c && i <= |vowelIndexes|
    requires forall k :: 0 <= k < |vowelIndexes| ==> vowelIndexes[k] < |c| && IsVowel(c[vowelIndexes[k]])
    decreases |c|, 2, |vowelIndexes| - i
  {
    if i == |vowelIndexes| then Run(Ok(acc), f)
    else
      var t := OneStress(cfg, f, c, vowelIndexes[i]);
      if t.result.OutOfBounds? then Run(OutOfBounds, t.flags)
      else if t.flags.passage then Run(Ok(acc + [t.result.value]), t.flags)
      else Each(cfg, t.flags, c, vowelIndexes, i + 1, acc + [t.result.value])
  }

  /** Lines 435-507 for word i: sandhi with the next word (empty after the
      last), then the first variant of the result */
  function PassageWord(cfg: Config, f: Flags, c: String, words: seq<String>, i: nat): Run<String>
    requires i < |words| && Parts(c, words)
    decreases |c|, 2, 0
  {
    var next := if i < |words| - 1 then words[i + 1] else "";
    var j := AfterSandhi(cfg.clitics, f.devoice, words[i], next);
    SandhiSpec(cfg.clitics, f.devoice, words[i], next);
    if j.word.OutOfBounds? then Run(OutOfBounds, f.(devoice := j.devoice))
    else First(Variants(cfg, f.(devoice := j.devoice), j.word.value))
  }

  /** Lines 433-510: each word transcribed and followed by a space, with
      devoicing back on for the next word */
  function Passage(cfg: Config, f: Flags, c: String, words: seq<String>, i: nat, acc: String): Run<String>
    requires i <= |words| && Parts(c, words)
    decreases |c|, 2, |words| - i + 1
  {
    if i == |words| then Run(Ok(acc), f)
    else
      var t := PassageWord(cfg, f, c, words, i);
      if t.result.OutOfBounds? then t
      else Passage(cfg, t.flags.(devoice := true), c, words, i + 1, acc + t.result.value + " ")
  }

  /** One word of the passage, for callers that have transcribed it */
  lemma PassageStep(cfg: Config, f: Flags, c: String, words: seq<String>, i: nat, acc: String, t: Run<String>)
    requires i < |words| && Parts(c, words)
    requires t == PassageWord(cfg, f, c, words, i)
    ensures t.result.OutOfBounds? ==> Passage(cfg, f, c, words, i, acc) == t
    ensures t.result.Ok? ==>
      Passage(cfg, f, c, words, i, acc) == Passage(cfg, t.flags.(devoice := true), c, words, i + 1, acc + t.result.value + " ")
  {
  }

  /** A character absent from c is absent once the letter at s is removed */
  lemma RemovedFree(c: String, s: nat, x: char)
    requires s < |c| && x !in c
    ensures x !in c[..s] + c[s + 1..]
  {
    var d := c[..s] + c[s + 1..];
    forall k | 0 <= k < |d| ensures d[k] != x {
      if k < s {
        assert d[k] == c[k];
      } else {
        assert d[k] == c[k + 1];
      }
    }
  }

  /** Transcribing a single word with the one-stress overload leaves the
      passage flag as it found it: only a passage sets or clears it. */
  lemma {:induction false} OneStressKeepsPassage(cfg: Config, f: Flags, c: String, idx: int)
    requires ' ' !in c
    ensures OneStress(cfg, f, c, idx).flags.passage == f.passage
    decreases |c|, if HandedOn(c, idx) then 6 else 1, 0
  {
    if idx != -1 && !(0 <= idx < |c|) {
      VariantsCount(cfg, f, c);
    } else if idx != -1 && !IsVowel(c[idx]) {
      VariantsCount(cfg, f, c);
      VariantsCount(cfg, Variants(cfg, f, c).flags, c);
    } else if '-' in c {
      HyphenatedKeepsPassage(cfg, f, c, idx);
    }
  }

  lemma {:induction false} HyphenatedKeepsPassage(cfg: Config, f: Flags, c: String, idx: int)
    requires '-' in c && ' ' !in c
    ensures Hyphenated(cfg, f, c, idx).flags.passage == f.passage
    decreases |c|, 0, 1
  {
    var parts := Split(c, '-');
    SplitParts(c, '-');
    SplitFree(c, '-', ' ');
    if |parts| > 0 {
      assert parts[0] in parts;
      var stressBefore := idx < |parts[0]|;
      var first, second := if stressBefore then idx else -1, if stressBefore then -1 else idx - (|parts[0]| + 1);
      HyphenatedParts(cfg, f, c, idx, parts, first, second);
      EachPartKeepsPassage(cfg, f, c, parts, first, second);
    }
  }

  /** The same for the two-stress overload */
  lemma {:induction false} TwoStressKeepsPassage(cfg: Config, f: Flags, c: String, s1: int, s2: int, primary: bool)
    requires ' ' !in c
    ensures TwoStress(cfg, f, c, s1, s2, primary).flags.passage == f.passage
    decreases |c|, if HandedOn2(c, s1, s2) then 6 else 1, 0
  {
    if !(0 <= s1 < |c|) || !(0 <= s2 < |c|) {
      VariantsCount(cfg, f, c);
    } else if !IsVowel(c[s1]) || !IsVowel(c[s2]) {
      VariantsCount(cfg, f, c);
      VariantsCount(cfg, Variants(cfg, f, c).flags, c);
    } else if '-' in c {
      Hyphenated2KeepsPassage(cfg, f.(dashed := true), c, s1, s2, primary);
    }
  }

  lemma {:induction false} Hyphenated2KeepsPassage(cfg: Config, f: Flags, c: String, s1: int, s2: int, primary: bool)
    requires '-' in c && ' ' !in c
    ensures Hyphenated2(cfg, f, c, s1, s2, primary).flags.passage == f.passage
    decreases |c|, 0, 1
  {
    var parts := Split(c, '-');
    SplitParts(c, '-');
    SplitFree(c, '-', ' ');
    if |parts| == 0 {
      Hyphenated2None(cfg, f, c, s1, s2, primary);
    } else {
      var n := |parts[0]|;
      if Min(s1, s2) < n < Max(s1, s2) {
        var first, second := Min(s1, s2), Max(s1, s2) - n - 1;
        Hyphenated2Each(cfg, f, c, s1, s2, primary, parts, n, first, second);
        EachPartKeepsPassage(cfg, f, c, parts, first, second);
      } else if Min(s1, s2) < n {
        Hyphenated2Before(cfg, f, c, s1, s2, primary, parts, n);
        BothBeforeKeepsPassage(cfg, f, c, parts, s1, s2, primary);
      } else {
        var first, second := s1 - n - 1, s2 - n - 1;
        Hyphenated2After(cfg, f, c, s1, s2, primary, parts, n, first, second);
        BothAfterKeepsPassage(cfg, f, c, parts, first, second, primary);
      }
    }
  }

  lemma {:induction false} EachPartKeepsPassage(cfg: Config, f: Flags, c: String, parts: seq<String>, s1: int, s2: int)
    requires 0 < |parts| && forall p :: p in parts ==> |p| < |c| && ' ' !in p
    ensures EachPart(cfg, f, c, parts, s1, s2).flags.passage == f.passage
    decreases |c|, 0, 0
  {
    assert parts[0] in parts;
    var a := OneStress(cfg, f, parts[0], s1);
    OneStressKeepsPassage(cfg, f, parts[0], s1);
    if a.result.Ok? && |parts| >= 2 {
      assert parts[1] in parts;
      OneStressKeepsPassage(cfg, a.flags, parts[1], s2);
    }
  }

  lemma {:induction false} BothBeforeKeepsPassage(cfg: Config, f: Flags, c: String, parts: seq<String>, s1: int, s2: int, primary: bool)
    requires 0 < |parts| && forall p :: p in parts ==> |p| < |c| && ' ' !in p
    ensures BothBefore(cfg, f, c, parts, s1, s2, primary).flags.passage == f.passage
    decreases |c|, 0, 0
  {
    if |parts| >= 2 {
      assert parts[0] in parts && parts[1] in parts;
      var a := TwoStress(cfg, f, parts[1], s1, s2, primary);
      TwoStressKeepsPassage(cfg, f, parts[1], s1, s2, primary);
      if a.result.Ok? {
        OneStressKeepsPassage(cfg, a.flags, parts[0], -1);
      }
    }
  }

  lemma {:induction false} BothAfterKeepsPassage(cfg: Config, f: Flags, c: String, parts: seq<String>, s1: int, s2: int, primary: bool)
    requires 0 < |parts| && forall p :: p in parts ==> |p| < |c| && ' ' !in p
    ensures BothAfter(cfg, f, c, parts, s1, s2, primary).flags.passage == f.passage
    decreases |c|, 0, 0
  {
    assert parts[0] in parts;
    var a := OneStress(cfg, f, parts[0], -1);
    OneStressKeepsPassage(cfg, f, parts[0], -1);
    if a.result.Ok? && |parts| >= 2 {
      assert parts[1] in parts;
      TwoStressKeepsPassage(cfg, a.flags, parts[1], s1, s2, primary);
    }
  }

  /** The variants overload on a single word leaves the passage flag alone and
      returns one transcription when the word carries stress marks, is inside
      a passage, follows sandhi that turned devoicing off, or has no vowel;
      otherwise one transcription per vowel. */
  lemma {:induction false} VariantsCount(cfg: Config, f: Flags, cyrillic: String)
    requires ' ' !in cyrillic
    ensures var c := ToLower(cyrillic);
      var v := VowelPositions(c, 0);
      var r := Variants(cfg, f, cyrillic);
      r.flags.passage == f.passage
      && (r.result.Ok? ==>
            |r.result.value| == if |StressIndex(c)| > 0 || f.passage || !f.devoice || |v| == 0 then 1 else |v|)
    decreases |cyrillic|, 5, 0
  {
    var c := ToLower(cyrillic);
    LowerNoSpace(cyrillic);
    StressIndexSpec(c);
    if |StressIndex(c)| == 1 {
      OneMarkedKeepsPassage(cfg, f, c);
    } else if |StressIndex(c)| == 2 {
      TwoMarkedKeepsPassage(cfg, f, c);
    } else {
      UnmarkedCount(cfg, f, c);
    }
  }

  lemma {:induction false} OneMarkedKeepsPassage(cfg: Config, f: Flags, c: String)
    requires |StressIndex(c)| == 1 && ' ' !in c
    ensures OneMarked(cfg, f, c).flags.passage == f.passage
    decreases |c|, 4, 0
  {
    StressIndexSpec(c);
    var s := StressIndex(c)[0];
    var d := c[..s] + c[s + 1..];
    RemovedFree(c, s, ' ');
    if f.passage && d in cfg.clitics {
      OneStressKeepsPassage(cfg, f, d, -1);
    } else {
      OneStressKeepsPassage(cfg, f, d, s - 1);
    }
  }

  lemma {:induction false} TwoMarkedKeepsPassage(cfg: Config, f: Flags, c: String)
    requires |StressIndex(c)| == 2 && ' ' !in c
    ensures TwoMarked(cfg, f, c).flags.passage == f.passage
    decreases |c|, 4, 0
  {
    StressIndexSpec(c);
    var s0, s1 := StressIndex(c)[0], StressIndex(c)[1];
    var d := c[..s0] + c[s0 + 1..];
    RemovedFree(c, s0, ' ');
    if s1 + 1 > |d| {
      TwoMarkedShort(cfg, f, c, d);
    } else {
      var e := d[..s1] + d[s1 + 1..];
      RemovedFree(d, s1, ' ');
      var first, second := s0 - 1, s1 - 1;
      TwoMarkedRun(cfg, f, c, d, e, first, second);
      TwoStressKeepsPassage(cfg, f, e, first, second, true);
    }
  }

  /** An unmarked word: one transcription, or one per vowel */
  lemma {:induction false} UnmarkedCount(cfg: Config, f: Flags, c: String)
    requires ' ' !in c
    ensures var v := VowelPositions(c, 0);
      var r := Unmarked(cfg, f, c);
      r.flags.passage == f.passage
      && (r.result.Ok? ==> |r.result.value| == if f.passage || !f.devoice || |v| == 0 then 1 else |v|)
    decreases |c|, 4, 0
  {
    var v := VowelPositions(c, 0);
    if (f.passage && c in cfg.clitics) || !f.devoice || |v| == 0 {
      OneStressKeepsPassage(cfg, f, c, -1);
    } else {
      EachCount(cfg, f, c, v, 0, []);
    }
  }

  /** The loop over the vowels: one transcription per remaining vowel, or
      just one more inside a passage */
  lemma {:induction false} EachCount(cfg: Config, f: Flags, c: String, vowelIndexes: seq<nat>, i: nat, acc: seq<String>)
    requires ' ' !in c && i <= |vowelIndexes|
    requires forall k :: 0 <= k < |vowelIndexes| ==> vowelIndexes[k] < |c| && IsVowel(c[vowelIndexes[k]])
    ensures var r := Each(cfg, f, c, vowelIndexes, i, acc);
      r.flags.passage == f.passage
      && (r.result.Ok? ==>
            |r.result.value| == if f.passage && i < |vowelIndexes| then |acc| + 1 else |acc| + |vowelIndexes| - i)
    decreases |c|, 2, |vowelIndexes| - i
  {
    if i < |vowelIndexes| {
      var t := OneStress(cfg, f, c, vowelIndexes[i]);
      OneStressKeepsPassage(cfg, f, c, vowelIndexes[i]);
      if t.result.Ok? && !t.flags.passage {
        EachCount(cfg, t.flags, c, vowelIndexes, i + 1, acc + [t.result.value]);
      }
    }
  }
}
