/** Regressive voicing assimilation inside a consonant cluster (assimilate):
    after the progressive rewrite св → сф, the cluster is scanned right to left
    and each obstruent takes the voicing of its right neighbour, where the
    neighbour's class is the one it had BEFORE the scan rewrote it. */
module Assimilation {
  import opened JavaText
  import opened Letters

  /** No letter of s is a vowel */
  predicate NoVowel(s: String) {
    forall x :: x in s ==> !IsVowel(x)
  }

  /** The progressive rewrite св → сф */
  function SvFixed(c: String): (r: String)
    ensures |r| == |c|
  {
    ReplaceLength(c, "св", "сф");
    Replace(c, "св", "сф")
  }

  /** The class the scan holds when it reaches letter i: the original class of
      the right neighbour, or Neither at the end and when that neighbour is в */
  function NextType(c: String, i: nat): Voicing
    requires i < |c|
  {
    if i + 1 == |c| || c[i + 1] == 'в' then Neither else ClassOf(c[i + 1])
  }

  /** What the scan writes for one letter, given the class it holds for its
      right neighbour: an obstruent of the other class than the neighbour's
      (neither being Neither) becomes its partner, х keeping its place */
  function Retuned(letter: char, next: Voicing): String {
    var t := ClassOf(letter);
    if t != next && t != Neither && next != Neither then
      var index := if t == Voiced then VoicedIndexOf(letter) else VoicelessIndexOf(letter);
      if next == Voiced && index < 8 then VoicedTable[index] else VoicelessTable[index]
    else [letter]
  }

  /** The scan's output for positions i.. of the св-rewritten cluster c */
  function RewrittenFrom(c: String, i: nat): String
    requires i <= |c|
    decreases |c| - i
  {
    if i == |c| then [] else Retuned(c[i], NextType(c, i)) + RewrittenFrom(c, i + 1)
  }

  /** The cluster after assimilate */
  function Assimilated(cluster: String): String {
    RewrittenFrom(SvFixed(cluster), 0)
  }

  /** assimilate: the backward scan, rewriting the cluster in place */
  method Assimilate(cluster0: String) returns (cluster: String)
    ensures cluster == Assimilated(cluster0)
  {
    cluster := Replace(cluster0, "св", "сф");
    ghost var c := cluster;
    var nextType := Neither;
    var i := |cluster| - 1;
    while i >= 0
      invariant -1 <= i < |c|
      invariant cluster == c[..i + 1] + RewrittenFrom(c, i + 1)
      invariant i >= 0 ==> nextType == NextType(c, i)
    {
      ghost var rest := RewrittenFrom(c, i + 1);
      var letter := cluster[i];
      assert letter == c[i];
      var typ, index := Classify(letter);
      if typ != nextType && typ != Neither && nextType != Neither {
        var newLetter := if nextType == Voiced && index < 8 then VoicedTable[index] else VoicelessTable[index];
        Splice(c, i, rest, newLetter);
        cluster := cluster[..i] + newLetter + cluster[i + 1..];
      } else {
        assert [letter] == Retuned(letter, nextType);
        Splice(c, i, rest, [letter]);
      }
      nextType := typ;
      if letter == 'в' {
        nextType := Neither;
      }
      i := i - 1;
    }
  }

  /** The two table lookups of one step of assimilate: the voiced table
      first, then the voiceless one */
  method Classify(letter: char) returns (typ: Voicing, index: int)
    ensures typ == ClassOf(letter)
    ensures typ != Neither ==> 0 <= index < |VoicelessTable|
    ensures forall next: Voicing ::
      Retuned(letter, next) ==
      (if typ != next && typ != Neither && next != Neither then
         (if next == Voiced && index < 8 then VoicedTable[index] else VoicelessTable[index])
       else [letter])
  {
    index := GetObstruentIndex(VoicedTable, [letter]);
    var voicedIndex := index;
    if index >= 0 {
      typ := Voiced;
    } else {
      index := GetObstruentIndex(VoicelessTable, [letter]);
      typ := if index >= 0 then Voiceless else Neither;
    }
    Classified(letter, voicedIndex, typ, index);
  }

  /** The two table lookups of one step give the letter's class and its index
      in its own table, so the step writes Retuned(letter, next) */
  lemma Classified(letter: char, voicedIndex: int, typ: Voicing, index: int)
    requires voicedIndex == IndexIn(VoicedTable, [letter])
    requires voicedIndex >= 0 ==> typ == Voiced && index == voicedIndex
    requires voicedIndex < 0 ==>
      index == IndexIn(VoicelessTable, [letter]) && typ == (if index >= 0 then Voiceless else Neither)
    ensures typ == ClassOf(letter)
    ensures typ != Neither ==> 0 <= index < |VoicelessTable|
    ensures forall next: Voicing ::
      Retuned(letter, next) ==
      (if typ != next && typ != Neither && next != Neither then
         (if next == Voiced && index < 8 then VoicedTable[index] else VoicelessTable[index])
       else [letter])
  {
    VoicedIndex(letter);
    VoicelessIndex(letter);
  }

  /** One step of the scan: writing w over letter i joins the done suffix. */
  lemma Splice(c: String, i: nat, rest: String, w: String)
    requires i < |c|
    requires rest == RewrittenFrom(c, i + 1) && w == Retuned(c[i], NextType(c, i))
    ensures (c[..i + 1] + rest)[..i] + w + (c[..i + 1] + rest)[i + 1..] == c[..i] + RewrittenFrom(c, i)
    ensures w == [c[i]] ==> c[..i + 1] + rest == c[..i] + RewrittenFrom(c, i)
  {
    var s := c[..i + 1] + rest;
    assert s[..i] == c[..i];
    assert s[i + 1..] == rest;
    assert c[..i + 1] == c[..i] + [c[i]];
  }

  /** Only an obstruent of the other class than its right neighbour's is
      rewritten, and then into its partner: х stays х, ч and ц before a voiced
      letter become дж and дз, one letter longer; every other rewrite keeps the
      length and swaps the voicing. */
  lemma RetunedVoicing(letter: char, next: Voicing)
    ensures Retuned(letter, next) != [letter] ==>
      ClassOf(letter) != Neither && next != Neither && next != ClassOf(letter)
    ensures letter == 'х' ==> Retuned(letter, next) == [letter]
    ensures |Retuned(letter, next)| == 2 <==> (letter == 'ч' || letter == 'ц') && next == Voiced
    ensures Retuned(letter, next) == "дж" <==> letter == 'ч' && next == Voiced
    ensures Retuned(letter, next) == "дз" <==> letter == 'ц' && next == Voiced
    ensures |Retuned(letter, next)| == 1 && Retuned(letter, next) != [letter] ==>
      ClassOf(Retuned(letter, next)[0]) == next
  {
    ClassOfLetters(letter);
    var r := Retuned(letter, next);
    if |r| == 1 {
      ClassOfLetters(r[0]);
    }
  }

  /** The final letter of the св-rewritten cluster, a non-obstruent and a
      letter just left of в are written back unchanged. */
  lemma {:induction false} RewrittenKeeps(c: String, i: nat)
    requires i < |c|
    requires i + 1 == |c| || c[i + 1] == 'в' || ClassOf(c[i]) == Neither
    ensures RewrittenFrom(c, i) == [c[i]] + RewrittenFrom(c, i + 1)
  {
  }

  /** The last letter of the cluster (after св → сф) is never changed. */
  lemma {:induction false} AssimilatedKeepsLast(cluster: String)
    requires |cluster| > 0
    ensures var c := SvFixed(cluster);
      var r := Assimilated(cluster);
      |r| > 0 && r[|r| - 1] == c[|c| - 1]
  {
    var c := SvFixed(cluster);
    RewrittenEnds(c, 0);
  }

  lemma {:induction false} RewrittenEnds(c: String, i: nat)
    requires i < |c|
    ensures var r := RewrittenFrom(c, i); |r| > 0 && r[|r| - 1] == c[|c| - 1]
    decreases |c| - i
  {
    if i + 1 < |c| {
      RewrittenEnds(c, i + 1);
    }
  }

  /** No rewrite shortens a letter, so the cluster does not get shorter. */
  lemma {:induction false} AssimilatedLength(cluster: String)
    ensures |Assimilated(cluster)| >= |cluster|
  {
    RewrittenLength(SvFixed(cluster), 0);
  }

  lemma {:induction false} RewrittenLength(c: String, i: nat)
    requires i <= |c|
    ensures |RewrittenFrom(c, i)| >= |c| - i
    decreases |c| - i
  {
    if i < |c| {
      RetunedVoicing(c[i], NextType(c, i));
      RewrittenLength(c, i + 1);
    }
  }

  /** All obstruents of one class and no св: assimilate changes nothing. */
  predicate UniformVoicing(c: String) {
    forall i, j :: 0 <= i < |c| && 0 <= j < |c| && ClassOf(c[i]) != Neither && ClassOf(c[j]) != Neither
      ==> ClassOf(c[i]) == ClassOf(c[j])
  }

  lemma UniformUnchanged(cluster: String)
    requires Find(cluster, "св") == -1 && UniformVoicing(cluster)
    ensures Assimilated(cluster) == cluster
  {
    ReplaceAbsent(cluster, "св", "сф");
    UniformFrom(cluster, 0);
  }

  lemma {:induction false} UniformFrom(c: String, i: nat)
    requires i <= |c| && UniformVoicing(c)
    ensures RewrittenFrom(c, i) == c[i..]
    decreases |c| - i
  {
    if i < |c| {
      UniformFrom(c, i + 1);
      assert Retuned(c[i], NextType(c, i)) == [c[i]] by {
        if i + 1 < |c| { assert ClassOf(c[i]) != Neither && ClassOf(c[i + 1]) != Neither ==> ClassOf(c[i]) == ClassOf(c[i + 1]); }
      }
      assert c[i..] == [c[i]] + c[i + 1..];
    }
  }

  /** Assimilation brings in no vowel. */
  lemma AssimilatedNoVowel(cluster: String)
    requires NoVowel(cluster)
    ensures NoVowel(Assimilated(cluster))
  {
    ReplaceChars(cluster, "св", "сф");
    RewrittenNoVowel(SvFixed(cluster), 0);
  }

  lemma {:induction false} RewrittenNoVowel(c: String, i: nat)
    requires i <= |c| && NoVowel(c)
    ensures NoVowel(RewrittenFrom(c, i))
    decreases |c| - i
  {
    if i < |c| {
      RewrittenNoVowel(c, i + 1);
      RetunedNoVowel(c[i], NextType(c, i));
      assert RewrittenFrom(c, i) == Retuned(c[i], NextType(c, i)) + RewrittenFrom(c, i + 1);
    }
  }

  /** What the scan writes for a letter that is not a vowel holds no vowel. */
  lemma RetunedNoVowel(letter: char, next: Voicing)
    requires !IsVowel(letter)
    ensures NoVowel(Retuned(letter, next))
  {
    var r := Retuned(letter, next);
    ClassOfLetters(letter);
    forall x | x in r ensures !IsVowel(x) {
      if r != [letter] {
        ClassOfLetters(x);
      }
    }
  }
}
