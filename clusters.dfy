/** analyzeCluster: one consonant cluster of a word as it is pronounced.
    щ is spelled out as шт, an interior т or д not followed by р is dropped,
    the cluster is assimilated, and шт is written back as щ. */
module Clusters {
  import opened JavaText
  import opened Letters
  import opened Assimilation

  /** Whether the deletion loop keeps letter j of the щ-expanded cluster s.
      The first and the last letter are never looked at; a letter right after a
      deleted one is skipped, since the loop index moves on past it. */
  predicate KeepAt(s: String, j: nat)
    requires j < |s|
    decreases j
  {
    j == 0 || j == |s| - 1 || !KeepAt(s, j - 1) || !((s[j] == 'т' || s[j] == 'д') && s[j + 1] != 'р')
  }

  /** The letters among the first j of s that the loop keeps */
  function KeptPrefix(s: String, j: nat): String
    requires j <= |s|
  {
    if j == 0 then [] else KeptPrefix(s, j - 1) + (if KeepAt(s, j - 1) then [s[j - 1]] else [])
  }

  function Pruned(s: String): String {
    KeptPrefix(s, |s|)
  }

  /** The cluster after analyzeCluster */
  function ClusterAnalyzed(cluster: String): String {
    var expanded := Replace(cluster, "щ", "шт");
    var pruned := if |expanded| > 2 then Pruned(expanded) else expanded;
    var assimilated := if |pruned| > 1 then Assimilated(pruned) else pruned;
    Replace(assimilated, "шт", "щ")
  }

  /** analyzeCluster: the deletion loop works on the cluster in place, its bound
      moving with the cluster's length; the ghost j is the position in the
      expanded cluster the loop has reached. */
  method AnalyzeCluster(cluster0: String) returns (cluster: String)
    ensures cluster == ClusterAnalyzed(cluster0)
  {
    cluster := Replace(cluster0, "щ", "шт");
    ghost var e := cluster;
    if |cluster| > 2 {
      var i := 1;
      ghost var j := 1;
      while i < |cluster| - 1
        invariant 1 <= j <= |e| && 0 <= i
        invariant cluster == KeptPrefix(e, j) + e[j..]
        invariant i == |KeptPrefix(e, j)|
        invariant KeepAt(e, j - 1)
        decreases |cluster| - i
      {
        var letter := cluster[i];
        assert letter == e[j] && cluster[i + 1] == e[j + 1] by {
          assert cluster[i..] == e[j..];
        }
        if (letter == 'т' || letter == 'д') && cluster[i + 1] != 'р' {
          assert !KeepAt(e, j) && KeepAt(e, j + 1);
          DropStep(e, j);
          cluster := cluster[..i] + cluster[i + 1..];
          j := j + 2;
        } else {
          assert KeepAt(e, j);
          KeepStep(e, j);
          j := j + 1;
        }
        i := i + 1;
      }
      PrunedTail(e, j);
    }
    if |cluster| > 1 {
      cluster := Assimilate(cluster);
    }
    cluster := Replace(cluster, "шт", "щ");
  }

  lemma KeepStep(e: String, j: nat)
    requires j < |e| && KeepAt(e, j)
    ensures KeptPrefix(e, j) + e[j..] == KeptPrefix(e, j + 1) + e[j + 1..]
    ensures |KeptPrefix(e, j + 1)| == |KeptPrefix(e, j)| + 1
  {
    assert e[j..] == [e[j]] + e[j + 1..];
  }

  lemma DropStep(e: String, j: nat)
    requires j + 1 < |e| && !KeepAt(e, j) && KeepAt(e, j + 1)
    ensures var c := KeptPrefix(e, j) + e[j..];
      var i := |KeptPrefix(e, j)|;
      c[..i] + c[i + 1..] == KeptPrefix(e, j + 2) + e[j + 2..]
    ensures |KeptPrefix(e, j + 2)| == |KeptPrefix(e, j)| + 1
  {
    var c := KeptPrefix(e, j) + e[j..];
    var i := |KeptPrefix(e, j)|;
    assert c[..i] == KeptPrefix(e, j);
    assert c[i + 1..] == e[j + 1..];
    assert e[j + 1..] == [e[j + 1]] + e[j + 2..];
  }

  /** Once the loop reaches the last letter, the rest is kept. */
  lemma PrunedTail(e: String, j: nat)
    requires 1 <= j <= |e| && j >= |e| - 1
    ensures KeptPrefix(e, j) + e[j..] == Pruned(e)
  {
    if j == |e| - 1 {
      assert e[j..] == [e[j]];
    }
  }

  /** The first and the last letter of the expanded cluster are always kept. */
  lemma {:induction false} PrunedEnds(s: String)
    requires |s| > 0
    ensures var p := Pruned(s); |p| > 0 && p[0] == s[0] && p[|p| - 1] == s[|s| - 1]
  {
    KeptPrefixStart(s, |s|);
  }

  lemma {:induction false} KeptPrefixStart(s: String, j: nat)
    requires 0 < j <= |s|
    ensures |KeptPrefix(s, j)| > 0 && KeptPrefix(s, j)[0] == s[0]
  {
    if j > 1 {
      KeptPrefixStart(s, j - 1);
    }
  }

  /** Only т and д are ever dropped, and each only when the next letter is not р
      and it is neither the first nor the last letter. */
  lemma DroppedLetter(s: String, j: nat)
    requires j < |s| && !KeepAt(s, j)
    ensures 0 < j < |s| - 1 && (s[j] == 'т' || s[j] == 'д') && s[j + 1] != 'р'
  {
  }

  /** Pruning removes only т and д: every other letter is kept as often as it occurs. */
  lemma PrunedCounts(s: String, j: nat)
    requires j <= |s|
    ensures multiset(KeptPrefix(s, j)) <= multiset(s[..j])
    ensures forall x :: x != 'т' && x != 'д' ==> multiset(KeptPrefix(s, j))[x] == multiset(s[..j])[x]
  {
    PrunedSub(s, j);
    forall x | x != 'т' && x != 'д'
      ensures multiset(KeptPrefix(s, j))[x] == multiset(s[..j])[x]
    {
      PrunedCount(s, j, x);
    }
  }

  /** The kept letters are among the letters looked at. */
  lemma {:induction false} PrunedSub(s: String, j: nat)
    requires j <= |s|
    ensures multiset(KeptPrefix(s, j)) <= multiset(s[..j])
  {
    if j > 0 {
      PrunedSub(s, j - 1);
      PrefixCount(s, j);
      KeptCount(s, j);
      SubAdd(multiset(KeptPrefix(s, j - 1)), multiset(s[..j - 1]), multiset{s[j - 1]});
    }
  }

  /** A letter other than т and д is kept every time it occurs. */
  lemma {:induction false} PrunedCount(s: String, j: nat, x: char)
    requires j <= |s| && x != 'т' && x != 'д'
    ensures multiset(KeptPrefix(s, j))[x] == multiset(s[..j])[x]
  {
    if j > 0 {
      PrunedCount(s, j - 1, x);
      PrefixCount(s, j);
      KeptCount(s, j);
      if !KeepAt(s, j - 1) {
        DroppedLetter(s, j - 1);
      }
    }
  }

  /** Adding the same letters to both sides keeps a multiset inclusion, and
      adding letters to the larger side alone keeps it too. */
  lemma SubAdd(a: multiset<char>, b: multiset<char>, c: multiset<char>)
    requires a <= b
    ensures a + c <= b + c && a <= b + c
  {
  }

  lemma PrefixCount(s: String, j: nat)
    requires 0 < j <= |s|
    ensures multiset(s[..j]) == multiset(s[..j - 1]) + multiset{s[j - 1]}
  {
    assert s[..j] == s[..j - 1] + [s[j - 1]];
  }

  lemma KeptCount(s: String, j: nat)
    requires 0 < j <= |s|
    ensures KeepAt(s, j - 1) ==> multiset(KeptPrefix(s, j)) == multiset(KeptPrefix(s, j - 1)) + multiset{s[j - 1]}
    ensures !KeepAt(s, j - 1) ==> KeptPrefix(s, j) == KeptPrefix(s, j - 1)
  {
  }

  /** Pruning brings in no letter the cluster did not have. */
  lemma PrunedLetters(s: String)
    ensures forall x :: x in Pruned(s) ==> x in s
  {
    PrunedCounts(s, |s|);
    assert s[..|s|] == s;
    forall x | x in Pruned(s) ensures x in s {
      assert x in multiset(Pruned(s));
    }
  }

  /** A one-letter cluster other than щ comes back as it was; щ comes back as щ. */
  lemma SingleLetterCluster(x: char)
    ensures ClusterAnalyzed([x]) == [x]
  {
    if x == 'щ' {
      assert Replace([x], "щ", "шт") == "шт";
      assert NextType("шт", 0) == Voiceless;
      assert RewrittenFrom("шт", 1) == "т";
      assert RewrittenFrom("шт", 0) == "шт";
      ReplaceAbsent("шт", "св", "сф");
      assert Assimilated("шт") == "шт";
    } else {
      forall j ensures !At([x], j, "щ") {
        if 0 <= j && j + 1 <= 1 {
          assert [x][j..j + 1] == [x];
        }
      }
      ReplaceAbsent([x], "щ", "шт");
    }
  }

  /** No vowel comes out of a cluster without vowels. */
  lemma ClusterNoVowel(cluster: String)
    requires NoVowel(cluster)
    ensures NoVowel(ClusterAnalyzed(cluster))
  {
    var e := Replace(cluster, "щ", "шт");
    ReplaceChars(cluster, "щ", "шт");
    assert NoVowel(e);
    var p := if |e| > 2 then Pruned(e) else e;
    PrunedLetters(e);
    assert NoVowel(p);
    var a := if |p| > 1 then Assimilated(p) else p;
    if |p| > 1 {
      AssimilatedNoVowel(p);
    }
    ReplaceChars(a, "шт", "щ");
  }
}
