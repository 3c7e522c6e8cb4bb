/** The transcription of one word once its stresses are known: the body of the
    one-stress toPhonetic after its checks (lowercasing, phonotation, the loan
    word у, дж as j, дз as d͡z, the stress-mark walk and the rendering) and
    the same body of the two-stress toPhonetic. */
module Words {
  import opened Wrappers
  import opened JavaText
  import opened Letters
  import opened Phonotation
  import opened Syllables
  import opened Stress
  import opened Phones

  /** What the converter reads but these steps never change: the links flag,
      the clitics and the loan-word roots */
  datatype Config = Config(links: bool, clitics: set<String>, loanWords: seq<String>)

  /** Some loan-word root is a prefix of c */
  predicate LoanPrefix(c: String, loanWords: seq<String>) {
    exists i :: 0 <= i < |loanWords| && StartsWith(c, loanWords[i])
  }

  /** An English loan word written with у starts with w instead; the first
      letter of an empty word does not exist */
  function LoanFixed(c: String, loanWords: seq<String>): Result<String> {
    if |c| == 0 then OutOfBounds
    else if c[0] == 'у' && LoanPrefix(c, loanWords) then Ok("w" + c[1..])
    else Ok(c)
  }

  /** Only the first letter can change, and it becomes w exactly when the word
      starts with у and with a loan-word root. */
  lemma LoanFixedSpec(c: String, loanWords: seq<String>)
    ensures LoanFixed(c, loanWords).OutOfBounds? <==> |c| == 0
    ensures LoanFixed(c, loanWords).Ok? ==>
      var r := LoanFixed(c, loanWords).value;
      |r| == |c| && r[1..] == c[1..]
      && (r[0] == 'w' <==> c[0] == 'w' || (c[0] == 'у' && LoanPrefix(c, loanWords)))
  {
  }

  /** The loan-word loop, which ends early by setting its counter past the end */
  method LoanWord(c: String, loanWords: seq<String>) returns (r: Result<String>)
    ensures r == LoanFixed(c, loanWords)
  {
    if |c| == 0 {
      return OutOfBounds;
    }
    var cyrillic := c;
    if c[0] == 'у' {
      var i := 0;
      while i < |loanWords|
        invariant 0 <= i <= |loanWords| + 1
        invariant i <= |loanWords| ==> cyrillic == c && forall j :: 0 <= j < i ==> !StartsWith(c, loanWords[j])
        invariant i == |loanWords| + 1 ==> cyrillic == "w" + c[1..] && LoanPrefix(c, loanWords)
      {
        if StartsWith(cyrillic, loanWords[i]) {
          cyrillic := "w" + cyrillic[1..];
          i := |loanWords|;
        }
        i := i + 1;
      }
    }
    return Ok(cyrillic);
  }

  /** The loop counting the vowels of the word */
  method CountVowels(cyrillic: String) returns (vowelCount: nat)
    ensures vowelCount == |VowelsOf(cyrillic)|
  {
    vowelCount := 0;
    for i := 0 to |cyrillic|
      invariant vowelCount == |VowelsOf(cyrillic[..i])|
    {
      VowelsOfConcat(cyrillic[..i], [cyrillic[i]]);
      assert cyrillic[..i + 1] == cyrillic[..i] + [cyrillic[i]];
      vowelCount := vowelCount + if IsVowel(cyrillic[i]) then 1 else 0;
    }
    assert cyrillic[..|cyrillic|] == cyrillic;
  }

  /** The word as both overloads prepare it, with its two stress indexes
      moved along: lowercased, rewritten as pronounced, loan-word у fixed,
      дж collapsed to j, and a leading дз written d͡z when links are on
      (which moves both indexes right, even an index of -1) */
  datatype Prepared = Prepared(word: String, stress1: int, stress2: int)

  function Prepare(cfg: Config, devoice: bool, cyrillic: String, s1: int, s2: int): Result<Prepared> {
    var p :- Phonotated(ToLower(cyrillic), devoice);
    var l :- LoanFixed(p, cfg.loanWords);
    Ok(DzLinked(Collapsed(l, s1).0, Collapsed(l, s1).1, Collapsed(l, s2).1, cfg.links))
  }

  /** A leading дз written d͡z when links are on, both indexes moving right */
  function DzLinked(c: String, i1: int, i2: int, links: bool): Prepared {
    if StartsWith(c, "дз") && links then Prepared("d͡z" + c[2..], i1 + 1, i2 + 1)
    else Prepared(c, i1, i2)
  }

  /** A stressed vowel of the lowercased and rewritten word is still the
      stressed letter of the prepared word. */
  lemma PrepareSpec(cfg: Config, devoice: bool, cyrillic: String, s1: int, s2: int)
    requires Prepare(cfg, devoice, cyrillic, s1, s2).Ok?
    ensures var l := LoanFixed(Phonotated(ToLower(cyrillic), devoice).value, cfg.loanWords).value;
      var p := Prepare(cfg, devoice, cyrillic, s1, s2).value;
      0 <= s1 < |l| && IsVowel(l[s1]) ==> 0 <= p.stress1 < |p.word| && p.word[p.stress1] == l[s1]
  {
    var l := LoanFixed(Phonotated(ToLower(cyrillic), devoice).value, cfg.loanWords).value;
    if 0 <= s1 < |l| && IsVowel(l[s1]) {
      CollapsedTracksStress(l, s1);
      DzKeepsVowel(Collapsed(l, s1).0, Collapsed(l, s1).1, Collapsed(l, s2).1, cfg.links);
    }
  }

  /** The d͡z spelling keeps a vowel at the first index where it was. */
  lemma DzKeepsVowel(c: String, i1: int, i2: int, links: bool)
    requires 0 <= i1 < |c| && IsVowel(c[i1])
    ensures var p := DzLinked(c, i1, i2, links); 0 <= p.stress1 < |p.word| && p.word[p.stress1] == c[i1]
  {
    if StartsWith(c, "дз") && links {
      assert c[i1] != 'д' && c[i1] != 'з' by {
        VowelClass(c[i1]);
        ClassOfLetters(c[i1]);
      }
      DzShift(c, i1);
    }
  }

  /** Writing a leading дз as d͡z moves every later letter one place right. */
  lemma DzShift(c: String, i: nat)
    requires StartsWith(c, "дз") && 2 <= i < |c|
    ensures ("d͡z" + c[2..])[i + 1] == c[i]
  {
  }

  /** Lines 120-153 of the one-stress overload and 292-324 of the two-stress one */
  method PrepareWord(cfg: Config, devoice: bool, cyrillic0: String, s1: int, s2: int) returns (r: Result<Prepared>)
    ensures r == Prepare(cfg, devoice, cyrillic0, s1, s2)
  {
    var cyrillic := ToLower(cyrillic0);
    var rewritten := Phonotation.Phonotation(cyrillic, devoice);
    if rewritten.OutOfBounds? {
      return OutOfBounds;
    }
    var loan := LoanWord(rewritten.value, cfg.loanWords);
    if loan.OutOfBounds? {
      return OutOfBounds;
    }
    var stressedIndex, secondStress;
    cyrillic, stressedIndex, secondStress := CollapseDzh(loan.value, s1, s2);
    var prepared := LinkDz(cyrillic, stressedIndex, secondStress, cfg.links);
    return Ok(prepared);
  }

  /** Lines 147-153 and 319-324: the leading дз with links on */
  method LinkDz(cyrillic0: String, stressedIndex0: int, secondStress0: int, links: bool) returns (p: Prepared)
    ensures p == DzLinked(cyrillic0, stressedIndex0, secondStress0, links)
    ensures |p.word| == |cyrillic0| + (if StartsWith(cyrillic0, "дз") && links then 1 else 0)
  {
    var cyrillic, stressedIndex, secondStress := cyrillic0, stressedIndex0, secondStress0;
    if StartsWith(cyrillic, "дз") && links {
      cyrillic := "d͡z" + cyrillic[2..];
      stressedIndex := stressedIndex + 1;
      secondStress := secondStress + 1;
    }
    return Prepared(cyrillic, stressedIndex, secondStress);
  }

  /** Lines 155-183: where the mark of the one-stress overload goes, -1 for no
      mark; a word with one vowel gets none unless it is part of a hyphenated
      word */
  function InsertionOne(q: String, stressedIndex: int, dashed: bool): Result<int> {
    if stressedIndex != -1 && (|VowelsOf(q)| > 1 || dashed) then
      var syllables :- Syllabify(q);
      Ok(InsertionAt(syllables, stressedIndex, 0))
    else Ok(-1)
  }

  /** The one-stress transcription of a word whose stress index is valid */
  function Word1(cfg: Config, devoice: bool, dashed: bool, cyrillic: String, stressedIndex: int): Result<String> {
    var p :- Prepare(cfg, devoice, cyrillic, stressedIndex, -1);
    var insertionIndex :- InsertionOne(p.word, p.stress1, dashed);
    Ok(Rendered(p.word, |p.word|, Marks(p.stress1, -1, insertionIndex, -1, false), cfg.links))
  }

  /** The body of the one-stress toPhonetic after its checks */
  method TranscribeOne(cfg: Config, devoice: bool, dashed: bool, cyrillic0: String, stressedIndex0: int) returns (r: Result<String>)
    ensures r == Word1(cfg, devoice, dashed, cyrillic0, stressedIndex0)
  {
    var prepared := PrepareWord(cfg, devoice, cyrillic0, stressedIndex0, -1);
    if prepared.OutOfBounds? {
      return OutOfBounds;
    }
    var cyrillic, stressedIndex := prepared.value.word, prepared.value.stress1;
    var insertionIndex := -1;
    if stressedIndex != -1 {
      var vowelCount := CountVowels(cyrillic);
      if vowelCount > 1 || dashed {
        var syllables := GetSyllables(cyrillic);
        if syllables.OutOfBounds? {
          return OutOfBounds;
        }
        insertionIndex := InsertionPoint(syllables.value, stressedIndex);
      }
    }
    var transcribed := Render(cyrillic, Marks(stressedIndex, -1, insertionIndex, -1, false), cfg.links);
    return Ok(transcribed);
  }

  /** The two-stress transcription of a word whose stress indexes are valid */
  function Word2(cfg: Config, devoice: bool, cyrillic: String, s1: int, s2: int, primary: bool): Result<String> {
    var p :- Prepare(cfg, devoice, cyrillic, s1, s2);
    var syllables :- Syllabify(p.word);
    var ins := Insertions(syllables, p.stress1, p.stress2, 0, -1, -1);
    Ok(Rendered(p.word, |p.word|, Marks(p.stress1, p.stress2, ins.0, ins.1, primary), cfg.links))
  }

  /** The body of the two-stress toPhonetic after its checks */
  method TranscribeTwo(cfg: Config, devoice: bool, cyrillic0: String, s1: int, s2: int, primary: bool) returns (r: Result<String>)
    ensures r == Word2(cfg, devoice, cyrillic0, s1, s2, primary)
  {
    var prepared := PrepareWord(cfg, devoice, cyrillic0, s1, s2);
    if prepared.OutOfBounds? {
      return OutOfBounds;
    }
    var cyrillic := prepared.value.word;
    var stressedIndex, secondStress := prepared.value.stress1, prepared.value.stress2;
    var syllables := GetSyllables(cyrillic);
    if syllables.OutOfBounds? {
      return OutOfBounds;
    }
    var insertionIndex1, insertionIndex2 := InsertionPoints(syllables.value, stressedIndex, secondStress);
    var transcribed := Render(cyrillic, Marks(stressedIndex, secondStress, insertionIndex1, insertionIndex2, primary), cfg.links);
    return Ok(transcribed);
  }

  /** The one-stress transcription adds at most one stress mark to the
      prepared word, and none when there is no stress or when a word that is
      not part of a hyphenated one has a single vowel. */
  lemma OneStressMark(cfg: Config, devoice: bool, dashed: bool, cyrillic: String, stressedIndex: int)
    requires Word1(cfg, devoice, dashed, cyrillic, stressedIndex).Ok?
    ensures Prepare(cfg, devoice, cyrillic, stressedIndex, -1).Ok?
    ensures var q := Prepare(cfg, devoice, cyrillic, stressedIndex, -1).value;
      var r := Word1(cfg, devoice, dashed, cyrillic, stressedIndex).value;
      Count(q.word, 'ˈ') <= Count(r, 'ˈ') <= Count(q.word, 'ˈ') + 1
      && (q.stress1 == -1 || (|VowelsOf(q.word)| <= 1 && !dashed) ==> Count(r, 'ˈ') == Count(q.word, 'ˈ'))
  {
    var q := Prepare(cfg, devoice, cyrillic, stressedIndex, -1).value;
    var ins := InsertionOne(q.word, q.stress1, dashed).value;
    OneMark(q.word, |q.word|, Marks(q.stress1, -1, ins, -1, false), cfg.links);
    assert q.word[..|q.word|] == q.word;
  }

  /** The two-stress transcription adds one mark per distinct insertion point,
      and with a primary second stress no secondary mark at all. */
  lemma TwoStressMarks(cfg: Config, devoice: bool, cyrillic: String, s1: int, s2: int, primary: bool)
    requires Word2(cfg, devoice, cyrillic, s1, s2, primary).Ok?
    ensures Prepare(cfg, devoice, cyrillic, s1, s2).Ok?
    ensures var q := Prepare(cfg, devoice, cyrillic, s1, s2).value.word;
      var r := Word2(cfg, devoice, cyrillic, s1, s2, primary).value;
      Count(q, 'ˈ') + Count(q, 'ˌ') <= Count(r, 'ˈ') + Count(r, 'ˌ') <= Count(q, 'ˈ') + Count(q, 'ˌ') + 2
      && (primary ==> Count(r, 'ˌ') == Count(q, 'ˌ'))
  {
    var p := Prepare(cfg, devoice, cyrillic, s1, s2).value;
    var q := p.word;
    var syllables := Syllabify(q).value;
    var ins := Insertions(syllables, p.stress1, p.stress2, 0, -1, -1);
    var m := Marks(p.stress1, p.stress2, ins.0, ins.1, primary);
    TwoMarks(q, |q|, m, cfg.links);
    SecondaryMark(q, |q|, m, cfg.links);
    assert q[..|q|] == q;
  }
}
