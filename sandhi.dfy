/** Sandhi: inside a passage, a word next to a clitic is pronounced together
    with the following word. The obstruents at the end of the word and at the
    start of the next one form one cluster that is assimilated as a whole, and
    the word takes the assimilated letters; some prepositions keep their final
    voiced letter. The passage loop passes the result on with its devoice flag. */
module Sandhi {
  import opened Wrappers
  import opened JavaText
  import opened Letters
  import opened Assimilation
  import opened Phonotation

  /** getObstruentIndex in the voiceless table or in the voiced one finds the letter */
  predicate IsObstruent(c: char) {
    ClassOf(c) != Neither
  }

  /** The obstruent lookup of the two gathering loops */
  method Obstruent(c: char) returns (b: bool)
    ensures b == IsObstruent(c)
  {
    var voiceless := GetObstruentIndex(VoicelessTable, [c]);
    var voiced := GetObstruentIndex(VoicedTable, [c]);
    VoicelessIndex(c);
    VoicedIndex(c);
    b := voiceless >= 0 || voiced >= 0;
  }

  /** How many obstruents end the word */
  function TailLength(word: String): (k: nat)
    ensures k <= |word|
    ensures forall j :: |word| - k <= j < |word| ==> IsObstruent(word[j])
    ensures k < |word| ==> !IsObstruent(word[|word| - k - 1])
    decreases |word|
  {
    if |word| == 0 || !IsObstruent(word[|word| - 1]) then 0 else 1 + TailLength(word[..|word| - 1])
  }

  /** How many obstruents start the next word */
  function LeadLength(next: String): (h: nat)
    ensures h <= |next|
    ensures forall j :: 0 <= j < h ==> IsObstruent(next[j])
    ensures h < |next| ==> !IsObstruent(next[h])
    decreases |next|
  {
    if |next| == 0 || !IsObstruent(next[0]) then 0 else 1 + LeadLength(next[1..])
  }

  /** A word after sandhi, or the exception that ended the passage, with the
      devoice flag as it then stands */
  datatype Joined = Joined(word: Result<String>, devoice: bool)

  /** How many letters of the assimilated cluster belong to the word: its
      obstruents, one more when ч became дж and the first ч, if any, lies
      among them */
  function WordShare(cluster: String, newCluster: String, k: nat): nat {
    if |newCluster| > |cluster| && IndexOfChar(cluster, 'ч', 0) <= k then k + 1 else k
  }

  /** The cluster the two gathering loops collect: the final obstruents of
      the word, then, after at least one of them, the initial obstruents of
      the next word */
  function Gathered(word: String, next: String): (cluster: String)
    ensures |cluster| >= TailLength(word)
    ensures forall x :: x in cluster ==> IsObstruent(x)
  {
    var k := TailLength(word);
    var h := if k > 0 then LeadLength(next) else 0;
    var cluster := word[|word| - k..] + next[..h];
    assert forall x :: x in cluster ==> IsObstruent(x) by {
      forall x | x in cluster ensures IsObstruent(x) {
        if x in word[|word| - k..] {
          var j :| 0 <= j < k && word[|word| - k..][j] == x;
          assert word[|word| - k + j] == x;
        } else {
          var j :| 0 <= j < h && next[..h][j] == x;
        }
      }
    }
    cluster
  }

  /** How many letters at the end of the word line 501 replaces (letterIndex
      after line 497): the word's obstruents, and one letter more when the
      assimilated cluster grew */
  function Share(word: String, next: String): (s: nat)
    ensures s == TailLength(word) || s == TailLength(word) + 1
    ensures s == TailLength(word) + 1 ==> |Assimilated(Gathered(word, next))| > |Gathered(word, next)|
    ensures s <= |Assimilated(Gathered(word, next))|
  {
    var cluster := Gathered(word, next);
    AssimilatedLength(cluster);
    WordShare(cluster, Assimilated(cluster), TailLength(word))
  }

  /** Lines 464-503 with the word cut corrected: the cluster of the final
      obstruents of the word and the initial obstruents of the next word is
      assimilated, and with devoicing off the obstruents of the word are
      replaced by the letters of the assimilated cluster that belong to it.
      Reading past the end of a next word made only of obstruents throws,
      after clearing devoice once per letter gathered before the last. */
  function Bridged(word: String, next: String, devoice: bool): Joined
    requires |next| > 0
  {
    var k := TailLength(word);
    var h := if k > 0 then LeadLength(next) else 0;
    if k > 0 && h == |next| then Joined(OutOfBounds, if h > 1 then false else devoice)
    else
      var d := if h > 0 then false else devoice;
      var newCluster := Assimilated(Gathered(word, next));
      var share := Share(word, next);
      if !d then Joined(Ok(word[..|word| - k] + newCluster[..share]), d)
      else Joined(Ok(word), d)
  }

  /** Lines 464-503 as written: the word is cut by the enlarged share too, so
      when ч becomes дж the letter before the cluster is lost, and a word made
      only of obstruents is cut past its start and throws */
  function BridgedAsWritten(word: String, next: String, devoice: bool): Joined
    requires |next| > 0
  {
    var k := TailLength(word);
    var h := if k > 0 then LeadLength(next) else 0;
    if k > 0 && h == |next| then Joined(OutOfBounds, if h > 1 then false else devoice)
    else
      var d := if h > 0 then false else devoice;
      var newCluster := Assimilated(Gathered(word, next));
      var share := Share(word, next);
      if !d then
        if share > |word| then Joined(OutOfBounds, d)
        else Joined(Ok(word[..|word| - share] + newCluster[..share]), d)
      else Joined(Ok(word), d)
  }

  /** Lines 441-505 for one word of a passage and the word after it (empty
      after the last word) */
  function AfterSandhi(clitics: set<String>, devoice: bool, word: String, next: String): Joined {
    if (word in clitics || next in clitics) && |next| > 0 then
      if |word| == 0 then Joined(OutOfBounds, devoice)
      else
        var last, first := word[|word| - 1], next[0];
        var v := word == "в" || word == "във";
        var d1 := if ClassOf(last) == Voiced && IsVowel(first) && word in clitics && !v then false else devoice;
        var d2 := if word == "във" && first == 'в' then false else d1;
        if !IsVowel(first) && first !in Sonorants && first != 'в' then BridgedAsWritten(word, next, d2)
        else Joined(Ok(word), d2)
    else Joined(Ok(word), devoice)
  }

  /** Sandhi only ever turns devoicing off, and only touches a word next to a
      clitic. A word handed on keeps its length; a rewritten one has
      devoicing off and keeps the letters before the replaced share, whose
      vowels are then all the vowels it has: all of the word's when only its
      obstruents were replaced, one letter fewer's when the share grew. */
  lemma SandhiSpec(clitics: set<String>, devoice: bool, word: String, next: String)
    ensures var j := AfterSandhi(clitics, devoice, word, next);
      (j.devoice ==> devoice)
      && (!(word in clitics || next in clitics) || |next| == 0 ==> j == Joined(Ok(word), devoice))
      && (j.word.Ok? ==> |j.word.value| == |word|)
    ensures var j := AfterSandhi(clitics, devoice, word, next);
      j.word.Ok? && j.word.value != word ==>
        !j.devoice
        && var w, s := j.word.value, Share(word, next);
        s <= |word| && w[..|word| - s] == word[..|word| - s]
        && VowelsOf(w) == VowelsOf(word[..|word| - s])
        && (s == TailLength(word) ==> VowelsOf(w) == VowelsOf(word))
  {
    if (word in clitics || next in clitics) && |next| > 0 && |word| > 0 {
      var first := next[0];
      if !IsVowel(first) && first !in Sonorants && first != 'в' {
        var last := word[|word| - 1];
        var d1 := if ClassOf(last) == Voiced && IsVowel(first) && word in clitics && !(word == "в" || word == "във") then false else devoice;
        var d2 := if word == "във" && first == 'в' then false else d1;
        BridgedAsWrittenSpec(word, next, d2);
      }
    }
  }

  /** The bridge as written: the same guarantees for one word and the next */
  lemma BridgedAsWrittenSpec(word: String, next: String, devoice: bool)
    requires |next| > 0
    ensures var j := BridgedAsWritten(word, next, devoice);
      (j.devoice ==> devoice)
      && (j.word.Ok? ==> |j.word.value| == |word|)
      && (j.word.Ok? && j.word.value != word ==>
        !j.devoice
        && var w, s := j.word.value, Share(word, next);
        s <= |word| && w[..|word| - s] == word[..|word| - s]
        && VowelsOf(w) == VowelsOf(word[..|word| - s])
        && (s == TailLength(word) ==> VowelsOf(w) == VowelsOf(word)))
  {
    var k := TailLength(word);
    var h := if k > 0 then LeadLength(next) else 0;
    var s := Share(word, next);
    if !(k > 0 && h == |next|) && (h > 0 || !devoice) && s <= |word| {
      CutWord(word, next, s);
    }
  }

  /** The word that keeps all but its last s letters and takes s letters of
      the assimilated cluster keeps its length, its prefix and the vowels of
      that prefix, and all its vowels when s is the obstruent tail. */
  lemma CutWord(word: String, next: String, s: nat)
    requires s == Share(word, next) && s <= |word|
    ensures var w := word[..|word| - s] + Assimilated(Gathered(word, next))[..s];
      |w| == |word| && w[..|word| - s] == word[..|word| - s]
      && VowelsOf(w) == VowelsOf(word[..|word| - s])
      && (s == TailLength(word) ==> VowelsOf(w) == VowelsOf(word))
  {
    AddedNoVowel(word, next);
    TailNoVowel(word);
    Spliced(word, |word| - s, Assimilated(Gathered(word, next))[..s]);
  }

  /** Replacing a vowel-free end of a word by vowel-free letters keeps the
      letters before it and the vowels of the word. */
  lemma Spliced(word: String, n: nat, added: String)
    requires n <= |word| && VowelsOf(added) == []
    ensures var w := word[..n] + added;
      w[..n] == word[..n] && VowelsOf(w) == VowelsOf(word[..n])
      && (VowelsOf(word[n..]) == [] ==> VowelsOf(w) == VowelsOf(word))
  {
    VowelsOfConcat(word[..n], added);
    assert (word[..n] + added)[..n] == word[..n];
    VowelsOfConcat(word[..n], word[n..]);
    assert word[..n] + word[n..] == word;
  }

  /** The letters the word takes from the assimilated cluster hold no vowel. */
  lemma AddedNoVowel(word: String, next: String)
    ensures VowelsOf(Assimilated(Gathered(word, next))[..Share(word, next)]) == []
  {
    var cluster := Gathered(word, next);
    assert NoVowel(cluster) by {
      forall x | x in cluster ensures !IsVowel(x) {
        VowelClass(x);
      }
    }
    AssimilatedNoVowel(cluster);
    var added := Assimilated(cluster)[..Share(word, next)];
    assert NoVowel(added) by {
      forall x | x in added ensures x in Assimilated(cluster) { }
    }
    VowelsOfNone(added);
  }

  /** The final obstruents of a word hold no vowel. */
  lemma TailNoVowel(word: String)
    ensures VowelsOf(word[|word| - TailLength(word)..]) == []
  {
    var tail := word[|word| - TailLength(word)..];
    assert NoVowel(tail) by {
      forall x | x in tail ensures !IsVowel(x) {
        VowelClass(x);
      }
    }
    VowelsOfNone(tail);
  }

  /** The corrected cut: the word keeps the letters before its obstruents and
      takes the letters of the assimilated cluster that belong to it. */
  lemma BridgedSpec(word: String, next: String, devoice: bool)
    requires |next| > 0
    ensures var j := Bridged(word, next, devoice);
      (j.devoice ==> devoice)
      && (j.word.Ok? && j.word.value != word ==>
        !j.devoice
        && var w, k := j.word.value, TailLength(word);
        |word| <= |w| <= |word| + 1 && w[..|word| - k] == word[..|word| - k]
        && VowelsOf(w) == VowelsOf(word))
  {
    var k := TailLength(word);
    var h := if k > 0 then LeadLength(next) else 0;
    if !(k > 0 && h == |next|) {
      var d := if h > 0 then false else devoice;
      if !d {
        CorrectedWord(word, next);
      }
    }
  }

  /** The word that keeps all but its obstruent tail and takes the share of
      the assimilated cluster keeps its prefix and its vowels, and grows by
      at most one letter. */
  lemma CorrectedWord(word: String, next: String)
    ensures var k := TailLength(word);
      var w := word[..|word| - k] + Assimilated(Gathered(word, next))[..Share(word, next)];
      |word| <= |w| <= |word| + 1 && w[..|word| - k] == word[..|word| - k]
      && VowelsOf(w) == VowelsOf(word)
  {
    AddedNoVowel(word, next);
    TailNoVowel(word);
    Spliced(word, |word| - TailLength(word), Assimilated(Gathered(word, next))[..Share(word, next)]);
  }

  /** The passage step of lines 441-505 */
  method JoinWords(clitics: set<String>, devoice0: bool, word: String, nextWord: String) returns (joined: Result<String>, devoice: bool)
    ensures Joined(joined, devoice) == AfterSandhi(clitics, devoice0, word, nextWord)
  {
    devoice := devoice0;
    if !((word in clitics || nextWord in clitics) && |nextWord| > 0) {
      return Ok(word), devoice;
    }
    if |word| == 0 {
      return OutOfBounds, devoice;
    }
    var last := word[|word| - 1];
    var first := nextWord[0];
    var v := word == "в" || word == "във";
    var lastVoiced := GetObstruentIndex(VoicedTable, [last]);
    VoicedIndex(last);
    if lastVoiced >= 0 && IsVowel(first) && word in clitics && !v {
      devoice := false;
    }
    if word == "във" && first == 'в' {
      devoice := false;
    }
    if !IsVowel(first) && first !in Sonorants && first != 'в' {
      joined, devoice := Bridge(word, nextWord, devoice);
    } else {
      joined := Ok(word);
    }
  }

  /** Lines 464-503: the two gathering loops, the assimilation and the cut
      of line 501, which throws when the share exceeds the word */
  method Bridge(word: String, nextWord: String, devoice0: bool) returns (joined: Result<String>, devoice: bool)
    requires |nextWord| > 0
    ensures Joined(joined, devoice) == BridgedAsWritten(word, nextWord, devoice0)
  {
    var cluster := TailCluster(word);
    var k := |cluster|;
    var gathered, letterIndex, complete;
    gathered, letterIndex, devoice, complete := HeadCluster(cluster, nextWord, devoice0);
    if !complete {
      return OutOfBounds, devoice;
    }
    cluster := gathered;
    var newCluster := Assimilate(cluster);
    letterIndex := |cluster| - letterIndex;
    if |newCluster| > |cluster| && IndexOfChar(cluster, 'ч', 0) <= letterIndex {
      letterIndex := letterIndex + 1;
    }
    BridgedCut(word, nextWord, k, cluster, newCluster, letterIndex);
    if !devoice {
      if letterIndex > |word| {
        return OutOfBounds, devoice;
      }
      return Ok(word[..|word| - letterIndex] + newCluster[..letterIndex]), devoice;
    }
    return Ok(word), devoice;
  }

  /** The cluster and share the loops compute are the gathered cluster and
      the share of the specification */
  lemma BridgedCut(word: String, next: String, k: nat, cluster: String, newCluster: String, share: nat)
    requires k == TailLength(word) && cluster == word[|word| - k..] + next[..if k > 0 then LeadLength(next) else 0]
    requires newCluster == Assimilated(cluster) && share == WordShare(cluster, newCluster, k)
    ensures cluster == Gathered(word, next) && share == Share(word, next)
    ensures share <= |newCluster|
  {
  }

  /** Lines 464-473: the obstruents at the end of the word, gathered backwards */
  method TailCluster(word: String) returns (cluster: String)
    ensures cluster == word[|word| - TailLength(word)..]
  {
    cluster := "";
    if |word| == 0 {
      return;
    }
    var letterIndex: int := |word| - 1;
    var last := word[letterIndex];
    var isObstruent := Obstruent(last);
    while isObstruent
      invariant -1 <= letterIndex < |word|
      invariant cluster == word[letterIndex + 1..]
      invariant last == if letterIndex >= 0 then word[letterIndex] else 0 as char
      invariant isObstruent == IsObstruent(last)
      invariant forall j :: letterIndex < j < |word| ==> IsObstruent(word[j])
      decreases letterIndex + 1
    {
      cluster := [last] + cluster;
      letterIndex := letterIndex - 1;
      if letterIndex >= 0 {
        last := word[letterIndex];
      } else {
        last := 0 as char;
      }
      isObstruent := Obstruent(last);
    }
    TailStop(word, letterIndex + 1);
  }

  /** Where the backward loop stops is the start of the obstruent tail. */
  lemma TailStop(word: String, j: nat)
    requires j <= |word| && forall i :: j <= i < |word| ==> IsObstruent(word[i])
    requires j > 0 ==> !IsObstruent(word[j - 1])
    ensures TailLength(word) == |word| - j
  {
  }

  /** Lines 475-487: the obstruents at the start of the next word, appended
      to a non-empty cluster; complete is false when the loop read past the
      end of the next word */
  method HeadCluster(cluster0: String, nextWord: String, devoice0: bool)
    returns (cluster: String, letterIndex: nat, devoice: bool, complete: bool)
    requires |nextWord| > 0
    ensures var h := if |cluster0| > 0 then LeadLength(nextWord) else 0;
      complete == !(|cluster0| > 0 && h == |nextWord|)
      && (complete ==>
            letterIndex == h && cluster == cluster0 + nextWord[..h] && devoice == (if h > 0 then false else devoice0))
      && (!complete ==> devoice == if h > 1 then false else devoice0)
  {
    cluster, letterIndex, devoice := cluster0, 0, devoice0;
    var first := nextWord[0];
    var isObstruent := Obstruent(first);
    while |cluster| > 0 && isObstruent
      invariant 0 <= letterIndex < |nextWord|
      invariant cluster == cluster0 + nextWord[..letterIndex]
      invariant first == nextWord[letterIndex] && isObstruent == IsObstruent(first)
      invariant forall j :: 0 <= j < letterIndex ==> IsObstruent(nextWord[j])
      invariant devoice == if letterIndex > 0 then false else devoice0
      invariant letterIndex > 0 ==> |cluster0| > 0
      decreases |nextWord| - letterIndex
    {
      cluster := cluster + [first];
      letterIndex := letterIndex + 1;
      assert nextWord[..letterIndex] == nextWord[..letterIndex - 1] + [nextWord[letterIndex - 1]];
      if letterIndex >= |nextWord| {
        LeadAll(nextWord);
        return cluster, letterIndex, devoice, false;
      }
      first := nextWord[letterIndex];
      isObstruent := Obstruent(first);
      devoice := false;
    }
    LeadStop(nextWord, letterIndex, |cluster0|);
    complete := true;
  }

  /** A next word whose letters are all obstruents is gathered to its end. */
  lemma LeadAll(next: String)
    requires forall j :: 0 <= j < |next| ==> IsObstruent(next[j])
    ensures LeadLength(next) == |next|
  {
  }

  /** Where the head loop stops is the obstruent prefix of the next word
      (nothing is gathered after a word without final obstruents). */
  lemma LeadStop(next: String, h: nat, k: nat)
    requires h < |next| && forall j :: 0 <= j < h ==> IsObstruent(next[j])
    requires k > 0 ==> !IsObstruent(next[h])
    requires h > 0 ==> k > 0
    ensures h == if k > 0 then LeadLength(next) else 0
  {
  }

  /** The cut as written loses the vowel of ключ before за, leaving no vowel;
      the corrected cut gives клюдж. */
  lemma CutTooShort()
    ensures BridgedAsWritten("ключ", "за", false).word == Ok("клдж")
    ensures Bridged("ключ", "за", false).word == Ok("клюдж")
    ensures VowelsOf("клдж") == [] && VowelsOf("ключ") == ['ю']
  {
    ExampleAsWritten();
    ExampleCorrected();
    ExampleVowels();
  }

  /** A word made only of ч before за is cut past its start: the passage
      throws where the corrected cut gives дж. */
  lemma CutPastStart()
    ensures AfterSandhi({"за"}, true, "ч", "за").word == OutOfBounds
    ensures Bridged("ч", "за", false).word == Ok("дж")
  {
    ExampleObstruentWord();
    assert BridgedAsWritten("ч", "за", true).word == OutOfBounds;
    assert "ч"[..1 - 1] + "джз"[..2] == "дж";
  }

  /** The cluster of ч за, its assimilation and the word's share of it */
  lemma ExampleObstruentWord()
    ensures TailLength("ч") == 1 && LeadLength("за") == 1
    ensures Gathered("ч", "за") == "чз" && Assimilated("чз") == "джз"
    ensures Share("ч", "за") == 2
  {
    assert "ч"[..0] == [];
    assert "за"[1..] == "а";
    assert "ч"[1 - 1..] + "за"[..1] == "чз";
    ExampleCluster();
    assert IndexOfChar("чз", 'ч', 0) == 0;
  }

  lemma ExampleAsWritten()
    ensures BridgedAsWritten("ключ", "за", false).word == Ok("клдж")
  {
    ExampleShare();
    assert "ключ"[..4 - 2] + "джз"[..2] == "клдж";
  }

  lemma ExampleCorrected()
    ensures Bridged("ключ", "за", false).word == Ok("клюдж")
  {
    ExampleShare();
    assert "ключ"[..4 - 1] + "джз"[..2] == "клюдж";
  }

  /** The cluster of ключ за, its assimilation and the word's share of it */
  lemma ExampleShare()
    ensures TailLength("ключ") == 1 && LeadLength("за") == 1
    ensures Gathered("ключ", "за") == "чз" && Assimilated("чз") == "джз"
    ensures Share("ключ", "за") == 2
  {
    assert "ключ"[..3] == "клю";
    assert "за"[1..] == "а";
    ExampleCluster();
    assert "ключ"[4 - 1..] + "за"[..1] == "чз";
    assert IndexOfChar("чз", 'ч', 0) == 0;
  }

  lemma ExampleCluster()
    ensures Assimilated("чз") == "джз"
  {
    assert Replace("чз", "св", "сф") == "чз" by {
      assert "чз"[..2][0] == 'ч' != "св"[0];
      assert "чз"[1..] == "з";
    }
    assert NextType("чз", 0) == Voiced;
    assert RewrittenFrom("чз", 1) == "з";
  }

  lemma ExampleVowels()
    ensures VowelsOf("клдж") == [] && VowelsOf("ключ") == ['ю']
  {
    VowelsOfConcat("кл", "дж");
    VowelsOfConcat("кл", "юч");
    assert "кл" + "дж" == "клдж" && "кл" + "юч" == "ключ";
    assert "кл"[1..] == "л" && "дж"[1..] == "ж" && "юч"[1..] == "ч";
  }
}
