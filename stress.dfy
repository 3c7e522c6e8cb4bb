/** Stress positions: the combining marks getStressIndex finds in a word, the
    дж loop of toPhonetic that collapses дж into the placeholder j while
    shifting the stress indexes, and the walks over the syllables that choose
    where the stress marks go. */
module Stress {
  import opened JavaText
  import opened Letters

  /** The combining grave accent, U+0300 */
  const Grave: char := '\U{0300}'
  /** The combining acute accent, U+0301 */
  const Acute: char := '\U{0301}'

  /** getStressIndex: the positions of the first one or two grave accents, or,
      when the word has none, of the acute accents; nothing without marks */
  function StressIndex(word: String): seq<int> {
    if Grave in word || Acute in word then
      var mark := if Grave in word then Grave else Acute;
      IndexOfCharIn(word, mark);
      var stressedIndex := IndexOfChar(word, mark, 0);
      var secondStress := IndexOfChar(word, mark, stressedIndex + 1);
      if secondStress > 0 then [stressedIndex, secondStress] else [stressedIndex]
    else []
  }

  /** getStressIndex finds nothing exactly when the word has no mark; otherwise
      it lists the first occurrence of the chosen mark, then the second one if
      there is one, and a single position means the mark occurs only once. */
  lemma StressIndexSpec(word: String)
    ensures var r := StressIndex(word);
      |r| <= 2 && (r == [] <==> Grave !in word && Acute !in word)
    ensures var r := StressIndex(word);
      var mark := if Grave in word then Grave else Acute;
      |r| > 0 ==>
        0 <= r[0] < |word| && word[r[0]] == mark && mark !in word[..r[0]]
        && (|r| == 1 ==> mark !in word[r[0] + 1..])
        && (|r| == 2 ==> r[0] < r[1] < |word| && word[r[1]] == mark && mark !in word[r[0] + 1..r[1]])
  {
    if Grave in word || Acute in word {
      var mark := if Grave in word then Grave else Acute;
      IndexOfCharIn(word, mark);
      var i := IndexOfChar(word, mark, 0);
      var j := IndexOfChar(word, mark, i + 1);
      assert mark !in word[..i] by {
        forall k | 0 <= k < i ensures word[..i][k] != mark {
          assert word[..i][k] == word[k];
        }
      }
      if j > 0 {
        assert mark !in word[i + 1..j] by {
          forall k | i + 1 <= k < j ensures word[k] != mark {
          }
        }
      } else {
        assert mark !in word[i + 1..] by {
          forall k | i + 1 <= k < |word| ensures word[k] != mark {
          }
        }
      }
    }
  }

  /** The дж loop: while the word holds дж, its first дж becomes the placeholder
      j, and a stress index past that position moves one place left */
  function Collapsed(c: String, idx: int): (r: (String, int))
    ensures Find(r.0, "дж") == -1 && |r.0| <= |c|
    decreases |c|
  {
    var rareIndex := Find(c, "дж");
    if rareIndex == -1 then (c, idx)
    else Collapsed(c[..rareIndex] + "j" + c[rareIndex + 2..], if idx > rareIndex then idx - 1 else idx)
  }

  /** The collapsed word does not depend on the stress index. */
  lemma {:induction false} CollapsedWord(c: String, i: int, k: int)
    ensures Collapsed(c, i).0 == Collapsed(c, k).0
    decreases |c|
  {
    var rareIndex := Find(c, "дж");
    if rareIndex != -1 {
      CollapsedWord(c[..rareIndex] + "j" + c[rareIndex + 2..],
        if i > rareIndex then i - 1 else i, if k > rareIndex then k - 1 else k);
    }
  }

  /** A stress index on a vowel still points at that vowel once every дж has
      been collapsed: the shift matches the letters removed before it. */
  lemma {:induction false} CollapsedTracksStress(c: String, idx: int)
    requires 0 <= idx < |c| && IsVowel(c[idx])
    ensures var r := Collapsed(c, idx); 0 <= r.1 < |r.0| && r.0[r.1] == c[idx]
    decreases |c|
  {
    var k := Find(c, "дж");
    if k != -1 {
      assert c[k] == 'д' && c[k + 1] == 'ж' by {
        assert c[k..k + 2] == "дж";
        assert c[k..k + 2][0] == c[k] && c[k..k + 2][1] == c[k + 1];
      }
      var d := c[..k] + "j" + c[k + 2..];
      var i := if idx > k then idx - 1 else idx;
      assert idx != k && idx != k + 1 by {
        VowelClass(c[idx]);
        ClassOfLetters(c[idx]);
      }
      assert d[i] == c[idx];
      CollapsedTracksStress(d, i);
    }
  }

  /** The дж loop of both toPhonetic overloads, with the two stress indexes
      of the two-stress overload; the one-stress overload passes -1 as the
      second one, which no position of the word exceeds. */
  method CollapseDzh(c0: String, s1: int, s2: int) returns (c: String, i1: int, i2: int)
    ensures (c, i1) == Collapsed(c0, s1) && i2 == Collapsed(c0, s2).1
  {
    c, i1, i2 := c0, s1, s2;
    while Find(c, "дж") != -1
      invariant Collapsed(c, i1) == Collapsed(c0, s1) && Collapsed(c, i2).1 == Collapsed(c0, s2).1
      decreases |c|
    {
      var rareIndex := Find(c, "дж");
      ghost var before := c;
      c := c[..rareIndex] + "j" + c[rareIndex + 2..];
      var j1, j2 := i1, i2;
      if i1 > rareIndex {
        i1 := i1 - 1;
      }
      if i2 > rareIndex {
        i2 := i2 - 1;
      }
      CollapseStep(before, j1, rareIndex, c, i1);
      CollapseStep(before, j2, rareIndex, c, i2);
    }
  }

  /** One turn of the дж loop leaves the fully collapsed word and index as they were. */
  lemma CollapseStep(c: String, idx: int, rareIndex: int, next: String, nextIdx: int)
    requires rareIndex == Find(c, "дж") != -1
    requires next == c[..rareIndex] + "j" + c[rareIndex + 2..]
    requires nextIdx == if idx > rareIndex then idx - 1 else idx
    ensures |next| < |c| && Collapsed(next, nextIdx) == Collapsed(c, idx)
  {
  }

  /** The total length of the syllables */
  function Total(syllables: seq<String>): nat {
    if |syllables| == 0 then 0 else |syllables[0]| + Total(syllables[1..])
  }

  /** Where syllable k starts: the length of the syllables before it */
  function Start(syllables: seq<String>, k: nat): nat
    requires k <= |syllables|
  {
    Total(syllables[..k])
  }

  lemma StartTail(syllables: seq<String>, k: nat)
    requires k < |syllables|
    ensures Start(syllables, k + 1) == |syllables[0]| + Start(syllables[1..], k)
  {
    assert syllables[..k + 1][1..] == syllables[1..][..k];
  }

  /** The walk of the one-stress overload: the start of the first syllable
      whose end, counted from length, reaches the stressed index; -1 when none
      does */
  function InsertionAt(syllables: seq<String>, idx: int, length: nat): int {
    if |syllables| == 0 then -1
    else if length + |syllables[0]| >= idx then length
    else InsertionAt(syllables[1..], idx, length + |syllables[0]|)
  }

  /** The insertion loop of the one-stress overload */
  method InsertionPoint(syllables: seq<String>, idx: int) returns (insertionIndex: int)
    ensures insertionIndex == InsertionAt(syllables, idx, 0)
  {
    var length: nat := 0;
    insertionIndex := -1;
    for k := 0 to |syllables|
      invariant InsertionAt(syllables, idx, 0) == InsertionAt(syllables[k..], idx, length)
    {
      var syllable := syllables[k];
      assert syllables[k..][1..] == syllables[k + 1..];
      if length + |syllable| >= idx {
        insertionIndex := length;
        return;
      } else {
        length := length + |syllable|;
      }
    }
  }

  /** The mark goes where syllable k starts, for the first k whose end reaches
      the stressed index (so a vowel that opens a syllable has its mark one
      syllable early); there is no mark when no syllable's end reaches it. */
  lemma {:induction false} InsertionStart(syllables: seq<String>, idx: int, length: nat)
    ensures var r := InsertionAt(syllables, idx, length);
      r == -1 <==> |syllables| == 0 || length + Total(syllables) < idx
    ensures var r := InsertionAt(syllables, idx, length);
      r != -1 ==> exists k :: (0 <= k < |syllables| && r == length + Start(syllables, k)
        && length + Start(syllables, k + 1) >= idx && (k == 0 || length + Start(syllables, k) < idx))
  {
    if |syllables| > 0 {
      var first := |syllables[0]|;
      StartTail(syllables, 0);
      assert Total(syllables) == first + Total(syllables[1..]);
      if length + first < idx {
        var tail := syllables[1..];
        InsertionStart(tail, idx, length + first);
        var r := InsertionAt(tail, idx, length + first);
        if r != -1 {
          var k :| 0 <= k < |tail| && r == length + first + Start(tail, k)
            && length + first + Start(tail, k + 1) >= idx && (k == 0 || length + first + Start(tail, k) < idx);
          StartTail(syllables, k);
          StartTail(syllables, k + 1);
          assert 0 <= k + 1 < |syllables| && r == length + Start(syllables, k + 1)
            && length + Start(syllables, k + 2) >= idx && length + Start(syllables, k + 1) < idx;
        }
      } else {
        assert syllables[..0] == [];
        assert length + Start(syllables, 1) >= idx && InsertionAt(syllables, idx, length) == length + Start(syllables, 0);
      }
    }
  }

  /** The walk of the two-stress overload: the cumulative length after each
      syllable is compared with the first stress, and only if that syllable
      did not take the first mark, with the second */
  function Insertions(syllables: seq<String>, s1: int, s2: int, length: nat, ins1: int, ins2: int): (int, int) {
    if |syllables| == 0 then (ins1, ins2)
    else
      var end := length + |syllables[0]|;
      if ins1 == -1 && end > s1 then Insertions(syllables[1..], s1, s2, end, length, ins2)
      else if ins2 == -1 && end > s2 then Insertions(syllables[1..], s1, s2, end, ins1, length)
      else Insertions(syllables[1..], s1, s2, end, ins1, ins2)
  }

  /** The insertion loop of the two-stress overload */
  method InsertionPoints(syllables: seq<String>, s1: int, s2: int) returns (insertionIndex1: int, insertionIndex2: int)
    ensures (insertionIndex1, insertionIndex2) == Insertions(syllables, s1, s2, 0, -1, -1)
  {
    var length: nat := 0;
    insertionIndex1, insertionIndex2 := -1, -1;
    for k := 0 to |syllables|
      invariant Insertions(syllables, s1, s2, 0, -1, -1)
        == Insertions(syllables[k..], s1, s2, length, insertionIndex1, insertionIndex2)
    {
      var syllable := syllables[k];
      assert syllables[k..][1..] == syllables[k + 1..];
      length := length + |syllable|;
      if insertionIndex1 == -1 && length > s1 {
        insertionIndex1 := length - |syllable|;
      } else if insertionIndex2 == -1 && length > s2 {
        insertionIndex2 := length - |syllable|;
      }
    }
  }

  /** The first mark of the two-stress walk goes where the one-stress walk
      would put the mark of index s1 + 1: the comparison is `>` where the
      one-stress overload has `>=`. */
  lemma {:induction false} FirstInsertion(syllables: seq<String>, s1: int, s2: int, length: nat, ins2: int)
    ensures Insertions(syllables, s1, s2, length, -1, ins2).0 == InsertionAt(syllables, s1 + 1, length)
  {
    if |syllables| > 0 {
      var end := length + |syllables[0]|;
      if end > s1 {
        KeepsFirst(syllables[1..], s1, s2, end, length, ins2);
      } else if ins2 == -1 && end > s2 {
        FirstInsertion(syllables[1..], s1, s2, end, length);
      } else {
        FirstInsertion(syllables[1..], s1, s2, end, ins2);
      }
    }
  }

  /** Once the first mark is placed, the walk does not move it. */
  lemma {:induction false} KeepsFirst(syllables: seq<String>, s1: int, s2: int, length: nat, ins1: int, ins2: int)
    requires ins1 != -1
    ensures Insertions(syllables, s1, s2, length, ins1, ins2).0 == ins1
  {
    if |syllables| > 0 {
      var end := length + |syllables[0]|;
      if ins2 == -1 && end > s2 {
        KeepsFirst(syllables[1..], s1, s2, end, ins1, length);
      } else {
        KeepsFirst(syllables[1..], s1, s2, end, ins1, ins2);
      }
    }
  }

  /** With non-empty syllables the two marks never go to the same syllable. */
  lemma {:induction false} DistinctInsertions(syllables: seq<String>, s1: int, s2: int, length: nat, ins1: int, ins2: int)
    requires forall k :: 0 <= k < |syllables| ==> |syllables[k]| > 0
    requires ins1 < length && ins2 < length
    requires ins1 == -1 || ins2 == -1 || ins1 != ins2
    ensures var r := Insertions(syllables, s1, s2, length, ins1, ins2);
      r.0 == -1 || r.1 == -1 || r.0 != r.1
  {
    if |syllables| > 0 {
      var end := length + |syllables[0]|;
      assert |syllables[0]| > 0;
      if ins1 == -1 && end > s1 {
        DistinctInsertions(syllables[1..], s1, s2, end, length, ins2);
      } else if ins2 == -1 && end > s2 {
        DistinctInsertions(syllables[1..], s1, s2, end, ins1, length);
      } else {
        DistinctInsertions(syllables[1..], s1, s2, end, ins1, ins2);
      }
    }
  }
}
