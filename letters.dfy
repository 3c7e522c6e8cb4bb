/** The letter tables of the converter: the eight vowel letters, the two
    index-aligned tables of voicing partners, and the lookup into them. */
module Letters {
  import opened JavaText

  /** The vowel letters, in the order the converter lists them (by frequency) */
  const Vowels: seq<char> := ['а', 'и', 'е', 'о', 'я', 'ъ', 'у', 'ю']

  /** The sonorants that block cross-word assimilation */
  const Sonorants: seq<char> := ['м', 'н', 'л', 'р', 'й', 'ь']

  /** Voiced obstruents; entry i is the partner of VoicelessTable[i] */
  const VoicedTable: seq<String> := ["д", "з", "б", "г", "в", "ж", "дж", "дз"]

  /** Voiceless obstruents; х at index 8 has no voiced partner */
  const VoicelessTable: seq<String> := ["т", "с", "п", "к", "ф", "ш", "ч", "ц", "х"]

  predicate IsVowel(c: char) {
    c in Vowels
  }

  /** The first index at which table holds letter, or -1 when it holds none */
  function IndexIn(table: seq<String>, letter: String): (i: int)
    ensures -1 <= i < |table|
    ensures i >= 0 ==> table[i] == letter
    ensures forall j :: 0 <= j < i || (i == -1 && 0 <= j < |table|) ==> table[j] != letter
    decreases |table|
  {
    if |table| == 0 then -1
    else if table[0] == letter then 0
    else
      var k := IndexIn(table[1..], letter);
      if k < 0 then -1 else k + 1
  }

  /** getObstruentIndex: a linear scan of the table with an early return */
  method GetObstruentIndex(obstruents: seq<String>, letter: String) returns (i: int)
    ensures i == IndexIn(obstruents, letter)
  {
    var j := 0;
    while j < |obstruents|
      invariant 0 <= j <= |obstruents|
      invariant forall k :: 0 <= k < j ==> obstruents[k] != letter
    {
      if obstruents[j] == letter {
        IndexInFirst(obstruents, letter, j);
        return j;
      }
      j := j + 1;
    }
    IndexInAbsent(obstruents, letter);
    return -1;
  }

  /** An index with the letter and none before it is the one IndexIn finds. */
  lemma IndexInFirst(table: seq<String>, letter: String, j: nat)
    requires j < |table| && table[j] == letter && letter !in table[..j]
    ensures IndexIn(table, letter) == j
  {
    assert forall k :: 0 <= k < j ==> table[..j][k] == table[k];
  }

  lemma IndexInAbsent(table: seq<String>, letter: String)
    requires letter !in table
    ensures IndexIn(table, letter) == -1
  {
  }

  /** Where each letter stands in the voiced table, read off the table */
  function VoicedIndexOf(c: char): int {
    match c
    case 'д' => 0 case 'з' => 1 case 'б' => 2 case 'г' => 3 case 'в' => 4 case 'ж' => 5
    case _ => -1
  }

  /** Where each letter stands in the voiceless table, read off the table */
  function VoicelessIndexOf(c: char): int {
    match c
    case 'т' => 0 case 'с' => 1 case 'п' => 2 case 'к' => 3 case 'ф' => 4 case 'ш' => 5
    case 'ч' => 6 case 'ц' => 7 case 'х' => 8
    case _ => -1
  }

  /** The lookup of a single letter in the voiced table finds the position
      listed above; the entries дж and дз never match a single letter. */
  lemma VoicedIndex(c: char)
    ensures IndexIn(VoicedTable, [c]) == VoicedIndexOf(c)
  {
    var i := VoicedIndexOf(c);
    if i >= 0 {
      assert VoicedTable[i] == [c];
      IndexInFirst(VoicedTable, [c], i);
    } else {
      IndexInAbsent(VoicedTable, [c]);
    }
  }

  lemma VoicelessIndex(c: char)
    ensures IndexIn(VoicelessTable, [c]) == VoicelessIndexOf(c)
  {
    var i := VoicelessIndexOf(c);
    if i >= 0 {
      assert VoicelessTable[i] == [c];
      IndexInFirst(VoicelessTable, [c], i);
    } else {
      IndexInAbsent(VoicelessTable, [c]);
    }
  }

  /** The voicing class of a single letter: voiced when the voiced table holds it,
      else voiceless when the voiceless table does (see VoicedIndex and
      VoicelessIndex for the lookup) */
  datatype Voicing = Voiced | Voiceless | Neither

  function ClassOf(c: char): Voicing {
    if VoicedIndexOf(c) >= 0 then Voiced
    else if VoicelessIndexOf(c) >= 0 then Voiceless
    else Neither
  }

  /** Exactly д з б г в ж are voiced and т с п к ф ш ч ц х voiceless. */
  lemma ClassOfLetters(c: char)
    ensures ClassOf(c) == Voiced <==> c in "дзбгвж"
    ensures ClassOf(c) == Voiceless <==> c in "тспкфшчцх"
  {
  }

  /** A voiced letter's index is below 6: it always has a voiceless partner. */
  lemma SingleLetterIndex(c: char)
    ensures IndexIn(VoicedTable, [c]) < 6
  {
    VoicedIndex(c);
  }

  /** No vowel is an obstruent or a sonorant. */
  lemma VowelClass(c: char)
    ensures IsVowel(c) ==> ClassOf(c) == Neither && c !in Sonorants
  {
    ClassOfLetters(c);
  }
}
