/** phonotation: a word rewritten the way it is pronounced, still in Cyrillic.
    A word-final voiced obstruent is devoiced (when devoicing is on), then every
    consonant cluster between the vowels goes through analyzeCluster. */
module Phonotation {
  import opened Wrappers
  import opened JavaText
  import opened Letters
  import opened Assimilation
  import opened Clusters

  /** Word-final devoicing: final дж becomes ч, another final voiced letter its
      voiceless partner. The last letter of an empty word does not exist. */
  function Devoiced(word: String, devoice: bool): Result<String> {
    if EndsWith(word, "дж") && devoice then Ok(word[..|word| - 2] + ['ч'])
    else if devoice then
      if |word| == 0 then OutOfBounds
      else
        var last := word[|word| - 1];
        var index := VoicedIndexOf(last);
        if index >= 0 then Ok(word[..|word| - 1] + VoicelessTable[index]) else Ok(word)
    else Ok(word)
  }

  /** With devoicing on, a non-empty word no longer ends in a voiced letter:
      its final дж is now ч, or its final voiced letter the voiceless partner;
      everything before is as it was. An empty word has no last letter. */
  lemma DevoicedFinal(word: String, devoice: bool)
    ensures Devoiced(word, devoice).OutOfBounds? <==> devoice && |word| == 0
    ensures !devoice ==> Devoiced(word, devoice) == Ok(word)
    ensures devoice && |word| > 0 ==>
      var w := Devoiced(word, devoice).value;
      |w| > 0 && ClassOf(w[|w| - 1]) != Voiced
      && (if EndsWith(word, "дж") then |w| == |word| - 1 else |w| == |word|)
      && w[..|w| - 1] == word[..|w| - 1]
    ensures devoice && |word| > 0 && !EndsWith(word, "дж") ==>
      var last := word[|word| - 1];
      Devoiced(word, devoice).value[|word| - 1]
        == (if ClassOf(last) == Voiced then VoicelessTable[VoicedIndexOf(last)][0] else last)
  {
    if devoice && |word| > 0 {
      var last := word[|word| - 1];
      ClassOfLetters(last);
      if !EndsWith(word, "дж") && VoicedIndexOf(last) >= 0 {
        ClassOfLetters(VoicelessTable[VoicedIndexOf(last)][0]);
      }
    }
  }

  /** The position of the first vowel of s, or |s| when it has none */
  function FirstVowel(s: String): (k: nat)
    ensures k <= |s|
    decreases |s|
  {
    if |s| == 0 || IsVowel(s[0]) then 0 else 1 + FirstVowel(s[1..])
  }

  /** FirstVowel finds a vowel, with none before it, or else there is none. */
  lemma {:induction false} FirstVowelSpec(s: String)
    ensures var k := FirstVowel(s);
      (k < |s| ==> IsVowel(s[k])) && forall j :: 0 <= j < k ==> !IsVowel(s[j])
    decreases |s|
  {
    if |s| > 0 && !IsVowel(s[0]) {
      FirstVowelSpec(s[1..]);
    }
  }

  /** Every consonant run of w, up to each vowel and after the last one,
      replaced by what f makes of it; the vowels stay where they are */
  function RewriteRuns(w: String, f: String -> String): String
    decreases |w|
  {
    var k := FirstVowel(w);
    if k == |w| then f(w)
    else f(w[..k]) + [w[k]] + RewriteRuns(w[k + 1..], f)
  }

  /** Every consonant run of w replaced by its analysed form */
  function ClustersRewritten(w: String): String {
    RewriteRuns(w, ClusterAnalyzed)
  }

  function Phonotated(word: String, devoice: bool): Result<String> {
    var w :- Devoiced(word, devoice);
    Ok(ClustersRewritten(w))
  }

  /** phonotation, with the object's devoice flag passed in */
  method Phonotation(word0: String, devoice: bool) returns (r: Result<String>)
    ensures r == Phonotated(word0, devoice)
  {
    var word := word0;
    if EndsWith(word, "дж") && devoice {
      word := word[..|word| - 2] + "ч";
    } else if devoice {
      if |word| == 0 {
        return OutOfBounds;
      }
      var last := word[|word| - 1..];
      assert last == [word[|word| - 1]];
      var index := GetObstruentIndex(VoicedTable, last);
      VoicedIndex(word[|word| - 1]);
      if index >= 0 {
        word := word[..|word| - 1] + VoicelessTable[index];
      }
    }
    assert Devoiced(word0, devoice) == Ok(word);
    var cluster: String := "";
    var output: String := "";
    ghost var total := Scanned(word, "", ClusterAnalyzed);
    assert word[0..] == word;
    for i := 0 to |word|
      invariant total == output + Scanned(word[i..], cluster, ClusterAnalyzed)
    {
      var letter := word[i];
      ScanStep(word, i, cluster, ClusterAnalyzed);
      if IsVowel(letter) {
        ghost var rest := Scanned(word[i + 1..], "", ClusterAnalyzed);
        cluster := AnalyzeCluster(cluster);
        Regroup(output, cluster, [letter], rest);
        output := output + cluster + [letter];
        cluster := "";
      } else {
        cluster := cluster + [letter];
      }
    }
    assert word[|word|..] == [];
    ghost var done := output;
    if |cluster| > 0 {
      var last := AnalyzeCluster(cluster);
      output := output + last;
    } else {
      assert ClusterAnalyzed(cluster) == [];
      assert output == done + [];
    }
    ScannedRuns(word, "", ClusterAnalyzed);
    assert "" + word == word;
    PhonotatedOf(word0, devoice, word);
    return Ok(output);
  }

  lemma Regroup(a: String, b: String, c: String, d: String)
    ensures a + (b + c + d) == a + b + c + d
  {
  }

  lemma PhonotatedOf(word: String, devoice: bool, w: String)
    requires Devoiced(word, devoice) == Ok(w)
    ensures Phonotated(word, devoice) == Ok(ClustersRewritten(w))
  {
  }

  /** The scan of phonotation's loop: letters gather into the pending cluster
      until a vowel closes it; what is pending at the end is one last run. */
  ghost function Scanned(w: String, cluster: String, f: String -> String): String
    decreases |w|
  {
    if |w| == 0 then f(cluster)
    else if IsVowel(w[0]) then f(cluster) + [w[0]] + Scanned(w[1..], [], f)
    else Scanned(w[1..], cluster + [w[0]], f)
  }

  /** One letter of the scan */
  lemma ScanStep(word: String, i: nat, cluster: String, f: String -> String)
    requires i < |word|
    ensures Scanned(word[i..], cluster, f) ==
      if IsVowel(word[i]) then f(cluster) + [word[i]] + Scanned(word[i + 1..], [], f)
      else Scanned(word[i + 1..], cluster + [word[i]], f)
  {
    assert word[i..][1..] == word[i + 1..];
  }

  /** The scan, started with a pending run of consonants, rewrites the runs of
      that run followed by the rest of the word. */
  lemma {:induction false} ScannedRuns(w: String, cluster: String, f: String -> String)
    requires NoVowel(cluster)
    ensures Scanned(w, cluster, f) == RewriteRuns(cluster + w, f)
    decreases |w|
  {
    if |w| == 0 {
      assert cluster + w == cluster;
      FirstVowelNone(cluster);
    } else if IsVowel(w[0]) {
      assert cluster + w == cluster + [w[0]] + w[1..];
      RunAfterCluster(cluster, w[0], w[1..], f);
      ScannedRuns(w[1..], [], f);
      assert [] + w[1..] == w[1..];
    } else {
      assert cluster + w == (cluster + [w[0]]) + w[1..];
      forall y | y in cluster + [w[0]] ensures !IsVowel(y) {
        assert y in cluster || y == w[0];
      }
      ScannedRuns(w[1..], cluster + [w[0]], f);
    }
  }

  lemma {:induction false} FirstVowelNone(s: String)
    requires NoVowel(s)
    ensures FirstVowel(s) == |s|
    decreases |s|
  {
    if |s| > 0 {
      assert s[0] in s;
      assert NoVowel(s[1..]) by {
        forall y | y in s[1..] ensures !IsVowel(y) {
          assert y in s;
        }
      }
      FirstVowelNone(s[1..]);
    }
  }

  /** A vowel after a run of consonants closes that run. */
  lemma RunAfterCluster(cluster: String, x: char, rest: String, f: String -> String)
    requires IsVowel(x) && NoVowel(cluster)
    ensures RewriteRuns(cluster + [x] + rest, f) == f(cluster) + [x] + RewriteRuns(rest, f)
  {
    var s := cluster + [x] + rest;
    FirstVowelAfter(cluster, x, rest);
    assert s[..|cluster|] == cluster;
    assert s[|cluster| + 1..] == rest;
  }

  lemma {:induction false} FirstVowelAfter(cluster: String, x: char, rest: String)
    requires IsVowel(x) && NoVowel(cluster)
    ensures FirstVowel(cluster + [x] + rest) == |cluster|
    decreases |cluster|
  {
    if |cluster| > 0 {
      assert cluster[0] in cluster;
      assert (cluster + [x] + rest)[1..] == cluster[1..] + [x] + rest;
      assert NoVowel(cluster[1..]) by {
        forall y | y in cluster[1..] ensures !IsVowel(y) {
          assert y in cluster;
        }
      }
      FirstVowelAfter(cluster[1..], x, rest);
    }
  }

  /** The vowels of s, in order */
  function VowelsOf(s: String): String
    decreases |s|
  {
    if |s| == 0 then [] else (if IsVowel(s[0]) then [s[0]] else []) + VowelsOf(s[1..])
  }

  lemma {:induction false} VowelsOfConcat(a: String, b: String)
    ensures VowelsOf(a + b) == VowelsOf(a) + VowelsOf(b)
    decreases |a|
  {
    if |a| > 0 {
      assert (a + b)[1..] == a[1..] + b;
      VowelsOfConcat(a[1..], b);
    } else {
      assert a + b == b;
    }
  }

  lemma {:induction false} VowelsOfNone(s: String)
    requires NoVowel(s)
    ensures VowelsOf(s) == []
    decreases |s|
  {
    if |s| > 0 {
      assert s[0] in s;
      assert forall x :: x in s[1..] ==> x in s;
      VowelsOfNone(s[1..]);
    }
  }

  /** Rewriting the clusters keeps the vowels of the word, in the same order,
      when the rewrite of a cluster brings in no vowel. */
  lemma {:induction false} RunsKeepVowels(w: String, f: String -> String)
    requires forall c :: NoVowel(c) ==> NoVowel(f(c))
    ensures VowelsOf(RewriteRuns(w, f)) == VowelsOf(w)
    decreases |w|
  {
    var k := FirstVowel(w);
    var head := w[..k];
    FirstVowelSpec(w);
    assert NoVowel(head) by {
      forall x | x in head ensures !IsVowel(x) {
        var j :| 0 <= j < |head| && head[j] == x;
        assert w[j] == x;
      }
    }
    VowelsOfNone(head);
    VowelsOfNone(f(head));
    if k < |w| {
      var x := w[k];
      var tail := w[k + 1..];
      RunsKeepVowels(tail, f);
      VowelsAround(head, x, tail);
      VowelsAround(f(head), x, RewriteRuns(tail, f));
      SplitAt(w, k);
      calc {
        VowelsOf(RewriteRuns(w, f));
        VowelsOf(f(head) + [x] + RewriteRuns(tail, f));
        [x] + VowelsOf(RewriteRuns(tail, f));
        [x] + VowelsOf(tail);
        VowelsOf(head + [x] + tail);
        VowelsOf(w);
      }
    } else {
      assert head == w;
    }
  }

  lemma ClustersKeepVowels(w: String)
    ensures VowelsOf(ClustersRewritten(w)) == VowelsOf(w)
  {
    forall c | NoVowel(c) ensures NoVowel(ClusterAnalyzed(c)) {
      ClusterNoVowel(c);
    }
    RunsKeepVowels(w, ClusterAnalyzed);
  }

  lemma SplitAt(s: String, k: nat)
    requires k < |s|
    ensures s == s[..k] + [s[k]] + s[k + 1..]
  {
  }

  lemma VowelsAround(a: String, x: char, b: String)
    requires VowelsOf(a) == [] && IsVowel(x)
    ensures VowelsOf(a + [x] + b) == [x] + VowelsOf(b)
  {
    VowelsOfConcat(a + [x], b);
    VowelsOfConcat(a, [x]);
  }

  /** phonotation keeps the vowels of the word in the same order: devoicing
      touches only a final consonant, and the clusters bring in no vowel. */
  lemma PhonotatedKeepsVowels(word: String, devoice: bool)
    requires Phonotated(word, devoice).Ok?
    ensures VowelsOf(Phonotated(word, devoice).value) == VowelsOf(word)
  {
    var w := Devoiced(word, devoice).value;
    PhonotatedOf(word, devoice, w);
    ClustersKeepVowels(w);
    DevoicedVowels(word, devoice);
  }

  lemma DevoicedVowels(word: String, devoice: bool)
    requires Devoiced(word, devoice).Ok?
    ensures VowelsOf(Devoiced(word, devoice).value) == VowelsOf(word)
  {
    var w := Devoiced(word, devoice).value;
    if devoice && w != word {
      var n := |word| - 1;
      if EndsWith(word, "дж") {
        SwapEnd(word[..n - 1], "дж", "ч");
        assert word == word[..n - 1] + "дж";
      } else {
        var last := word[n];
        var partner := VoicelessTable[VoicedIndexOf(last)];
        ClassOfLetters(last);
        ClassOfLetters(partner[0]);
        VowelClass(last);
        VowelClass(partner[0]);
        SwapEnd(word[..n], [last], partner);
        assert word == word[..n] + [last];
      }
    }
  }

  /** Swapping a vowel-free ending for another keeps the vowels. */
  lemma SwapEnd(p: String, a: String, b: String)
    requires VowelsOf(a) == [] && VowelsOf(b) == []
    ensures VowelsOf(p + a) == VowelsOf(p + b)
  {
    VowelsOfConcat(p, a);
    VowelsOfConcat(p, b);
  }
}
