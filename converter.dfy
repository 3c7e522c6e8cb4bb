/** The converter object: the links setting, the clitics and loan-word roots
    the caller may replace, and the three flags the toPhonetic overloads use to
    talk to each other. Each overload is proved to compute what its function in
    Transcription says, from the flags it finds to the flags it leaves. */
module Converter {
  import opened Wrappers
  import opened JavaText
  import opened Letters
  import opened Syllables
  import opened Stress
  import opened Words
  import opened Sandhi
  import opened Transcription

  /** The clitics the converter starts with: short words pronounced together
      with a neighbouring word, without a stress of their own */
  const DefaultClitics: set<String> := {
    "му", "те", "ти", "ги", "им", "си", "се", "го", "я", "и",
    "съм", "е", "сме", "сте", "са", "бях", "бе", "ме", "ми", "й", "ни", "ви", "хем",
    "без", "в", "вдън", "во", "връз", "всред", "във", "въз", "не", "я", "че", "ту",
    "до", "за", "зад", "из", "край", "към", "на", "над", "низ", "о", "от", "под", "пред",
    "през", "при", "с", "след", "сред", "със", "у", "чрез", "а", "ако", "ала", "ама",
    "ами", "да", "дето", "и", "или", "като", "ни", "нито", "но", "па", "пък", "та", "то", "ща"}

  /** The roots of English loan words whose у is pronounced w */
  const DefaultLoanWords: seq<String> := ["уи", "уеб", "уейлс", "уест", "уо"]

  class PhoneticConverter {
    const links: bool
    var passage: bool
    var devoice: bool
    var dashed: bool
    var loanWords: seq<String>
    var clitics: set<String>

    /** What the overloads read and never change */
    function Settings(): Config
      reads this
    {
      Config(links, clitics, loanWords)
    }

    /** The flags the overloads change */
    function State(): Flags
      reads this
    {
      Flags(passage, devoice, dashed)
    }

    /** A converter with the default clitics and loan words, outside any
        passage, with devoicing on; the website is never searched */
    constructor(links: bool, searchWebsite: bool)
      ensures Settings() == Config(links, DefaultClitics, DefaultLoanWords)
      ensures State() == Flags(false, true, false)
    {
      this.links := links;
      clitics := DefaultClitics;
      loanWords := DefaultLoanWords;
      passage := false;
      devoice := true;
      dashed := false;
    }

    /** setLoanWords */
    method SetLoanWords(newWords: seq<String>)
      modifies this`loanWords
      ensures Settings() == old(Settings()).(loanWords := newWords)
    {
      loanWords := newWords;
    }

    /** setClitics: the sorted array is only ever searched, so its entries are
        what matters */
    method SetClitics(newClitics: seq<String>)
      modifies this`clitics
      ensures Settings() == old(Settings()).(clitics := set c | c in newClitics)
    {
      clitics := set c | c in newClitics;
    }

    /** toPhonetic(String, int) */
    method ToPhonetic(cyrillic: String, stressedIndex: int) returns (r: Result<String>)
      modifies this
      ensures Settings() == old(Settings())
      ensures var run := OneStress(old(Settings()), old(State()), cyrillic, stressedIndex); r == run.result && State() == run.flags
      decreases |cyrillic|, if HandedOn(cyrillic, stressedIndex) then 6 else 1, 0
    {
      if ' ' in cyrillic {
        var all := ToPhoneticVariants(cyrillic);
        return FirstOf(all);
      }
      if stressedIndex != -1 {
        if !(0 <= stressedIndex < |cyrillic|) {
          var all := ToPhoneticVariants(cyrillic);
          return FirstOf(all);
        }
        if !IsVowel(cyrillic[stressedIndex]) {
          var all := ToPhoneticVariants(cyrillic);
          r := FirstOf(all);
          if r.OutOfBounds? {
            all := ToPhoneticVariants(cyrillic);
            r := FirstOf(all);
          }
          return;
        }
      }
      if '-' in cyrillic {
        r := HyphenatedOne(cyrillic, stressedIndex);
        return;
      }
      r := TranscribeOne(Settings(), devoice, dashed, cyrillic, stressedIndex);
      if r.Ok? {
        dashed := false;
      }
    }

    /** Lines 107-118 of the one-stress overload */
    method HyphenatedOne(cyrillic: String, stressedIndex: int) returns (r: Result<String>)
      requires '-' in cyrillic
      modifies this
      ensures Settings() == old(Settings())
      ensures var run := Hyphenated(old(Settings()), old(State()), cyrillic, stressedIndex); r == run.result && State() == run.flags
      decreases |cyrillic|, 0, 0
    {
      var parts := Split(cyrillic, '-');
      SplitParts(cyrillic, '-');
      if |parts| == 0 {
        return OutOfBounds;
      }
      assert parts[0] in parts;
      var a, b;
      if stressedIndex < |parts[0]| {
        a := ToPhonetic(parts[0], stressedIndex);
        if a.OutOfBounds? {
          return OutOfBounds;
        }
        if |parts| < 2 {
          return OutOfBounds;
        }
        assert parts[1] in parts;
        b := ToPhonetic(parts[1], -1);
      } else {
        var secondIndex := stressedIndex - (|parts[0]| + 1);
        a := ToPhonetic(parts[0], -1);
        if a.OutOfBounds? {
          return OutOfBounds;
        }
        if |parts| < 2 {
          return OutOfBounds;
        }
        assert parts[1] in parts;
        b := ToPhonetic(parts[1], secondIndex);
      }
      if b.OutOfBounds? {
        return OutOfBounds;
      }
      return Ok(a.value + "-" + b.value);
    }

    /** toPhonetic(String, int, int, boolean) */
    method ToPhoneticTwoStresses(cyrillic: String, stressedIndex: int, secondStress: int, primary: bool) returns (r: Result<String>)
      modifies this
      ensures Settings() == old(Settings())
      ensures var run := TwoStress(old(Settings()), old(State()), cyrillic, stressedIndex, secondStress, primary); r == run.result && State() == run.flags
      decreases |cyrillic|, if HandedOn2(cyrillic, stressedIndex, secondStress) then 6 else 1, 0
    {
      if ' ' in cyrillic {
        var all := ToPhoneticVariants(cyrillic);
        return FirstOf(all);
      }
      if !(0 <= stressedIndex < |cyrillic|) || !(0 <= secondStress < |cyrillic|) {
        var all := ToPhoneticVariants(cyrillic);
        return FirstOf(all);
      }
      if !IsVowel(cyrillic[stressedIndex]) || !IsVowel(cyrillic[secondStress]) {
        var all := ToPhoneticVariants(cyrillic);
        r := FirstOf(all);
        if r.OutOfBounds? {
          all := ToPhoneticVariants(cyrillic);
          r := FirstOf(all);
        }
        return;
      }
      if '-' in cyrillic {
        dashed := true;
        r := HyphenatedTwo(cyrillic, stressedIndex, secondStress, primary);
        return;
      }
      r := TranscribeTwo(Settings(), devoice, cyrillic, stressedIndex, secondStress, primary);
    }

    /** Lines 264-289 of the two-stress overload */
    method HyphenatedTwo(cyrillic: String, stressedIndex: int, secondStress: int, primary: bool) returns (r: Result<String>)
      requires '-' in cyrillic
      modifies this
      ensures Settings() == old(Settings())
      ensures var run := Hyphenated2(old(Settings()), old(State()), cyrillic, stressedIndex, secondStress, primary); r == run.result && State() == run.flags
      decreases |cyrillic|, 0, 1
    {
      ghost var cfg, f0 := Settings(), State();
      var larger, smaller := secondStress, stressedIndex;
      if stressedIndex > secondStress {
        larger, smaller := stressedIndex, secondStress;
      }
      var parts := Split(cyrillic, '-');
      SplitParts(cyrillic, '-');
      if |parts| == 0 {
        Hyphenated2None(cfg, f0, cyrillic, stressedIndex, secondStress, primary);
        return OutOfBounds;
      }
      var n := |parts[0]|;
      if smaller < n && larger > n {
        var second := larger - n - 1;
        Hyphenated2Each(cfg, f0, cyrillic, stressedIndex, secondStress, primary, parts, n, smaller, second);
        r := StressInEachPart(cyrillic, parts, smaller, second);
      } else if smaller < n {
        Hyphenated2Before(cfg, f0, cyrillic, stressedIndex, secondStress, primary, parts, n);
        r := StressesBefore(cyrillic, parts, stressedIndex, secondStress, primary);
      } else {
        var first, second := stressedIndex - n - 1, secondStress - n - 1;
        Hyphenated2After(cfg, f0, cyrillic, stressedIndex, secondStress, primary, parts, n, first, second);
        r := StressesAfter(cyrillic, parts, first, second, primary);
      }
    }

    /** Line 281: one stress before the hyphen and one after it */
    method StressInEachPart(cyrillic: String, parts: seq<String>, s1: int, s2: int) returns (r: Result<String>)
      requires 0 < |parts| && forall p :: p in parts ==> |p| < |cyrillic|
      modifies this
      ensures Settings() == old(Settings())
      ensures var run := EachPart(old(Settings()), old(State()), cyrillic, parts, s1, s2); r == run.result && State() == run.flags
      decreases |cyrillic|, 0, 0
    {
      assert parts[0] in parts;
      var a := ToPhonetic(parts[0], s1);
      if a.OutOfBounds? {
        return OutOfBounds;
      }
      if |parts| < 2 {
        return OutOfBounds;
      }
      assert parts[1] in parts;
      var b := ToPhonetic(parts[1], s2);
      if b.OutOfBounds? {
        return OutOfBounds;
      }
      return Ok(a.value + "-" + b.value);
    }

    /** Line 283: both stresses before the hyphen */
    method StressesBefore(cyrillic: String, parts: seq<String>, s1: int, s2: int, primary: bool) returns (r: Result<String>)
      requires 0 < |parts| && forall p :: p in parts ==> |p| < |cyrillic|
      modifies this
      ensures Settings() == old(Settings())
      ensures var run := BothBefore(old(Settings()), old(State()), cyrillic, parts, s1, s2, primary); r == run.result && State() == run.flags
      decreases |cyrillic|, 0, 0
    {
      if |parts| < 2 {
        return OutOfBounds;
      }
      assert parts[0] in parts && parts[1] in parts;
      var a := ToPhoneticTwoStresses(parts[1], s1, s2, primary);
      if a.OutOfBounds? {
        return OutOfBounds;
      }
      var b := ToPhonetic(parts[0], -1);
      if b.OutOfBounds? {
        return OutOfBounds;
      }
      return Ok(a.value + "-" + b.value);
    }

    /** Lines 284-289: both stresses after the hyphen */
    method StressesAfter(cyrillic: String, parts: seq<String>, s1: int, s2: int, primary: bool) returns (r: Result<String>)
      requires 0 < |parts| && forall p :: p in parts ==> |p| < |cyrillic|
      modifies this
      ensures Settings() == old(Settings())
      ensures var run := BothAfter(old(Settings()), old(State()), cyrillic, parts, s1, s2, primary); r == run.result && State() == run.flags
      decreases |cyrillic|, 0, 0
    {
      assert parts[0] in parts;
      var a := ToPhonetic(parts[0], -1);
      if a.OutOfBounds? {
        return OutOfBounds;
      }
      if |parts| < 2 {
        return OutOfBounds;
      }
      assert parts[1] in parts;
      var b := ToPhoneticTwoStresses(parts[1], s1, s2, primary);
      if b.OutOfBounds? {
        return OutOfBounds;
      }
      return Ok(a.value + "-" + b.value);
    }

    /** toPhonetic(String), without the website */
    method ToPhoneticVariants(cyrillic0: String) returns (r: Result<seq<String>>)
      modifies this
      ensures Settings() == old(Settings())
      ensures var run := Variants(old(Settings()), old(State()), cyrillic0); r == run.result && State() == run.flags
      decreases |cyrillic0|, 5, 0
    {
      var cyrillic := ToLower(cyrillic0);
      if ' ' in cyrillic {
        r := TranscribePassage(cyrillic);
        return;
      }
      var stresses := StressIndex(cyrillic);
      if |stresses| == 1 {
        r := RemoveOneMark(cyrillic);
      } else if |stresses| == 2 {
        r := RemoveTwoMarks(cyrillic);
      } else {
        r := AllVariants(cyrillic);
      }
    }

    /** Lines 523-533 */
    method RemoveOneMark(cyrillic0: String) returns (r: Result<seq<String>>)
      requires |StressIndex(cyrillic0)| == 1
      modifies this
      ensures Settings() == old(Settings())
      ensures var run := OneMarked(old(Settings()), old(State()), cyrillic0); r == run.result && State() == run.flags
      decreases |cyrillic0|, 4, 0
    {
      var stresses := StressIndex(cyrillic0);
      StressIndexSpec(cyrillic0);
      var cyrillic := cyrillic0[..stresses[0]] + cyrillic0[stresses[0] + 1..];
      var transcription;
      if passage && cyrillic in clitics {
        transcription := ToPhonetic(cyrillic, -1);
      } else {
        var stressedIndex := stresses[0] - 1;
        transcription := ToPhonetic(cyrillic, stressedIndex);
      }
      if transcription.OutOfBounds? {
        return OutOfBounds;
      }
      return Ok([transcription.value]);
    }

    /** Lines 534-545 */
    method RemoveTwoMarks(cyrillic0: String) returns (r: Result<seq<String>>)
      requires |StressIndex(cyrillic0)| == 2
      modifies this
      ensures Settings() == old(Settings())
      ensures var run := TwoMarked(old(Settings()), old(State()), cyrillic0); r == run.result && State() == run.flags
      decreases |cyrillic0|, 4, 0
    {
      ghost var cfg, f0 := Settings(), State();
      var stresses := StressIndex(cyrillic0);
      StressIndexSpec(cyrillic0);
      var shortened := cyrillic0[..stresses[0]] + cyrillic0[stresses[0] + 1..];
      if stresses[1] + 1 > |shortened| {
        TwoMarkedShort(cfg, f0, cyrillic0, shortened);
        return OutOfBounds;
      }
      var cyrillic := shortened[..stresses[1]] + shortened[stresses[1] + 1..];
      var stressedIndex, secondStress := stresses[0] - 1, stresses[1] - 1;
      TwoMarkedRun(cfg, f0, cyrillic0, shortened, cyrillic, stressedIndex, secondStress);
      var transcription := ToPhoneticTwoStresses(cyrillic, stressedIndex, secondStress, true);
      if transcription.OutOfBounds? {
        return OutOfBounds;
      }
      return Ok([transcription.value]);
    }

    /** Lines 552-594 */
    method AllVariants(cyrillic: String) returns (r: Result<seq<String>>)
      requires ' ' !in cyrillic
      modifies this
      ensures Settings() == old(Settings())
      ensures var run := Unmarked(old(Settings()), old(State()), cyrillic); r == run.result && State() == run.flags
      decreases |cyrillic|, 4, 0
    {
      var vowelIndexes := VowelList(cyrillic);
      if (passage && cyrillic in clitics) || !devoice || |vowelIndexes| == 0 {
        var transcription := ToPhonetic(cyrillic, -1);
        if transcription.OutOfBounds? {
          return OutOfBounds;
        }
        return Ok([transcription.value]);
      }
      ghost var cfg, f0 := Settings(), State();
      var transcriptions: seq<String> := [];
      for i := 0 to |vowelIndexes|
        invariant Settings() == cfg
        invariant Each(cfg, f0, cyrillic, vowelIndexes, 0, []) == Each(cfg, State(), cyrillic, vowelIndexes, i, transcriptions)
      {
        var transcription := ToPhonetic(cyrillic, vowelIndexes[i]);
        if transcription.OutOfBounds? {
          return OutOfBounds;
        }
        transcriptions := transcriptions + [transcription.value];
        if passage {
          return Ok(transcriptions);
        }
      }
      return Ok(transcriptions);
    }

    /** Lines 405-517: several words, each after sandhi with the next one */
    method TranscribePassage(cyrillic: String) returns (r: Result<seq<String>>)
      requires ' ' in cyrillic
      modifies this
      ensures Settings() == old(Settings())
      ensures var run := Passaged(old(Settings()), old(State()), cyrillic); r == run.result && State() == run.flags
      decreases |cyrillic|, 4, 0
    {
      ghost var cfg, f0 := Settings(), State();
      passage := true;
      var words := Split(cyrillic, ' ');
      SplitWords(cyrillic);
      var transcription := "";
      var i := 0;
      while i < |words|
        invariant 0 <= i <= |words|
        invariant Settings() == cfg
        invariant Passage(cfg, f0.(passage := true), cyrillic, words, 0, "") == Passage(cfg, State(), cyrillic, words, i, transcription)
      {
        ghost var f := State();
        var first := TranscribeWord(cyrillic, words, i);
        PassageStep(cfg, f, cyrillic, words, i, transcription, Run(first, State()));
        if first.OutOfBounds? {
          return OutOfBounds;
        }
        transcription := transcription + first.value + " ";
        devoice := true;
        i := i + 1;
      }
      passage := false;
      return Ok([Trim(transcription)]);
    }

    /** Lines 435-507 for word i of the passage */
    method TranscribeWord(cyrillic: String, words: seq<String>, i: nat) returns (r: Result<String>)
      requires i < |words| && Parts(cyrillic, words)
      modifies this
      ensures Settings() == old(Settings())
      ensures var run := PassageWord(old(Settings()), old(State()), cyrillic, words, i); r == run.result && State() == run.flags
      decreases |cyrillic|, 2, 0
    {
      var word := words[i];
      var nextWord := if i < |words| - 1 then words[i + 1] else "";
      var joined, d := JoinWords(clitics, devoice, word, nextWord);
      SandhiSpec(clitics, devoice, word, nextWord);
      devoice := d;
      if joined.OutOfBounds? {
        return OutOfBounds;
      }
      var all := ToPhoneticVariants(joined.value);
      return FirstOf(all);
    }
  }
}
