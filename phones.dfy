/** convertLetter and the rendering loop of both toPhonetic overloads: every
    letter of the normalised word becomes its IPA symbols, and a stress mark is
    written in front of the letter where the stressed syllable starts. */
module Phones {
  import opened JavaText

  /** convertLetter. `stressed` picks the stressed vowel of а о у ъ ю я, the
      non-velarised л and the velar н; `links` picks the tie bar on ц, ч and on
      the placeholder j that stands for дж; a character outside the table is
      returned as it is. */
  function ConvertLetter(letter: char, stressed: bool, links: bool): String {
    match letter
    case 'а' => if stressed then "a" else "ɐ"
    case 'б' => "b"
    case 'в' => "v"
    case 'г' => "g"
    case 'д' => "d"
    case 'е' => "ɛ"
    case 'ж' => "ʒ"
    case 'з' => "z"
    case 'и' => "i"
    case 'й' => "j"
    case 'к' => "k"
    case 'л' => if stressed then "l" else "ɫ"
    case 'м' => "m"
    case 'н' => if stressed then "ŋ" else "n"
    case 'о' => if stressed then "ɔ" else "o"
    case 'п' => "p"
    case 'р' => "r"
    case 'с' => "s"
    case 'т' => "t"
    case 'у' => if stressed then "u" else "o"
    case 'ф' => "f"
    case 'х' => "x"
    case 'ц' => if links then "t͡s" else "ts"
    case 'ч' => if links then "t͡ʃ" else "tʃ"
    case 'ш' => "ʃ"
    case 'щ' => "ʃt"
    case 'ъ' => if stressed then "ɤ" else "ɐ"
    case 'ь' => "j"
    case 'ю' => if stressed then "ju" else "jo"
    case 'я' => if stressed then "ja" else "jɐ"
    case 'j' => if links then "d͡ʒ" else "dʒ"
    case _ => [letter]
  }

  /** The characters the table of convertLetter knows */
  predicate Mapped(c: char) {
    match c
    case 'а' | 'б' | 'в' | 'г' | 'д' | 'е' | 'ж' | 'з' | 'и' | 'й' | 'к' | 'л' | 'м' | 'н' | 'о' | 'п' => true
    case 'р' | 'с' | 'т' | 'у' | 'ф' | 'х' | 'ц' | 'ч' | 'ш' | 'щ' | 'ъ' | 'ь' | 'ю' | 'я' | 'j' => true
    case _ => false
  }

  /** The stressed flag changes the rendering of exactly а о у ъ ю я л н. */
  lemma StressedLetters(c: char, links: bool)
    ensures ConvertLetter(c, true, links) != ConvertLetter(c, false, links) <==> c in "аоуъюялн"
  {
  }

  /** The links flag changes the rendering of exactly ц, ч and the placeholder
      j, which is d͡ʒ with links and dʒ without, whatever the stressed flag. */
  lemma LinkedLetters(c: char, stressed: bool)
    ensures ConvertLetter(c, stressed, true) != ConvertLetter(c, stressed, false) <==> c in "цчj"
    ensures ConvertLetter('j', stressed, true) == "d͡ʒ" && ConvertLetter('j', stressed, false) == "dʒ"
  {
  }

  /** A character comes back as itself exactly when the table does not know it. */
  lemma PassThrough(c: char, stressed: bool, links: bool)
    ensures ConvertLetter(c, stressed, links) == [c] <==> !Mapped(c)
  {
  }

  /** No letter is rendered with a stress mark: a mark in the output is one
      that was already in the input. */
  lemma NoMarkRendered(c: char, stressed: bool, links: bool)
    ensures 'ˈ' in ConvertLetter(c, stressed, links) <==> c == 'ˈ'
    ensures 'ˌ' in ConvertLetter(c, stressed, links) <==> c == 'ˌ'
    ensures c == 'ˈ' || c == 'ˌ' ==> ConvertLetter(c, stressed, links) == [c]
  {
  }

  /** How often the marks occur in the rendering of one letter */
  lemma MarkCount(c: char, stressed: bool, links: bool)
    ensures Count(ConvertLetter(c, stressed, links), 'ˈ') == if c == 'ˈ' then 1 else 0
    ensures Count(ConvertLetter(c, stressed, links), 'ˌ') == if c == 'ˌ' then 1 else 0
  {
    NoMarkRendered(c, stressed, links);
    var r := ConvertLetter(c, stressed, links);
    if c == 'ˈ' || c == 'ˌ' {
      assert r[..0] == [];
    } else {
      CountAbsent(r, 'ˈ');
      CountAbsent(r, 'ˌ');
    }
  }

  /** The flag convertLetter receives for letter i of q: for л whether и or е
      follows it, for н whether к or г follows it, for every other letter the
      stressed flag the caller computed */
  function Flag(q: String, i: nat, stressed: bool): bool
    requires i < |q|
  {
    var letter := q[i];
    if letter == 'л' || letter == 'н' then
      var nextLetter := if i < |q| - 1 then q[i + 1] else 0 as char;
      (letter == 'л' && (nextLetter == 'и' || nextLetter == 'е'))
      || (letter == 'н' && (nextLetter == 'к' || nextLetter == 'г'))
    else stressed
  }

  /** Where the stresses are and where their marks go, in the coordinates of
      the normalised word. The one-stress overload has stress2 = insert2 = -1. */
  datatype Marks = Marks(stress1: int, stress2: int, insert1: int, insert2: int, primary: bool)

  /** What is written in front of letter i: the primary mark at the first
      insertion point, else at the second the primary or secondary mark */
  function MarkAt(m: Marks, i: int): String {
    if i == m.insert1 then "ˈ"
    else if i == m.insert2 then (if m.primary then "ˈ" else "ˌ")
    else ""
  }

  /** The transcription of the first n letters of q */
  function Rendered(q: String, n: nat, m: Marks, links: bool): String
    requires n <= |q|
    decreases n, 1
  {
    if n == 0 then [] else RenderedThrough(q, n - 1, m, links)
  }

  /** The transcription of the letters of q up to and including letter i */
  function RenderedThrough(q: String, i: nat, m: Marks, links: bool): String
    requires i < |q|
    decreases i + 1, 0
  {
    Rendered(q, i, m, links) + MarkAt(m, i) + ConvertLetter(q[i], Flag(q, i, i == m.stress1 || i == m.stress2), links)
  }

  /** The rendering loop of toPhonetic */
  method Render(q: String, m: Marks, links: bool) returns (transcribed: String)
    ensures transcribed == Rendered(q, |q|, m, links)
  {
    transcribed := "";
    for i := 0 to |q|
      invariant transcribed == Rendered(q, i, m, links)
    {
      var mark := MarkFor(m, i);
      var stressed := LetterFlag(q, i, i == m.stress1 || i == m.stress2);
      transcribed := transcribed + mark + ConvertLetter(q[i], stressed, links);
    }
  }

  /** The mark the rendering loop writes in front of letter i */
  method MarkFor(m: Marks, i: int) returns (mark: String)
    ensures mark == MarkAt(m, i)
    ensures |mark| <= 1 && (mark == "ˈ" <==> i == m.insert1 || (i == m.insert2 && m.primary))
  {
    mark := "";
    if i == m.insert1 {
      mark := "ˈ";
    } else if i == m.insert2 {
      if m.primary {
        mark := "ˈ";
      } else {
        mark := "ˌ";
      }
    }
  }

  /** The flag the rendering loop hands to convertLetter for letter i: л before
      и or е and н before к or г are flagged whatever the stress, any other л or
      н is not */
  method LetterFlag(q: String, i: nat, stressed0: bool) returns (stressed: bool)
    requires i < |q|
    ensures stressed == Flag(q, i, stressed0)
    ensures q[i] != 'л' && q[i] != 'н' ==> stressed == stressed0
    ensures q[i] == 'л' ==> (stressed <==> i + 1 < |q| && q[i + 1] in "ие")
    ensures q[i] == 'н' ==> (stressed <==> i + 1 < |q| && q[i + 1] in "кг")
  {
    stressed := stressed0;
    var letter := q[i];
    if letter == 'л' || letter == 'н' {
      var nextLetter: char;
      if i < |q| - 1 {
        nextLetter := q[i + 1];
      } else {
        nextLetter := 0 as char;
      }
      var nonvelarized := letter == 'л' && (nextLetter == 'и' || nextLetter == 'е');
      var curved := letter == 'н' && (nextLetter == 'к' || nextLetter == 'г');
      stressed := nonvelarized || curved;
    }
  }

  /** One step of the rendering adds the marks of the mark written in front of
      letter n-1 and the mark that letter is, if it is one. */
  lemma RenderedStep(q: String, n: nat, m: Marks, links: bool, mark: char)
    requires 0 < n <= |q| && (mark == 'ˈ' || mark == 'ˌ')
    ensures Count(Rendered(q, n, m, links), mark)
      == Count(Rendered(q, n - 1, m, links), mark) + Count(MarkAt(m, n - 1), mark) + (if q[n - 1] == mark then 1 else 0)
  {
    var i := n - 1;
    var prev, before := Rendered(q, i, m, links), MarkAt(m, i);
    var stressed := Flag(q, i, i == m.stress1 || i == m.stress2);
    var letter := ConvertLetter(q[i], stressed, links);
    assert Rendered(q, n, m, links) == prev + before + letter;
    CountConcat(prev, before, mark);
    CountConcat(prev + before, letter, mark);
    MarkCount(q[i], stressed, links);
  }

  /** The primary marks MarkAt writes in front of letter i */
  lemma PrimaryAt(m: Marks, i: int)
    ensures Count(MarkAt(m, i), 'ˈ') == if i == m.insert1 || (i == m.insert2 && m.primary) then 1 else 0
  {
    var s := MarkAt(m, i);
    if s != "" { assert s[..0] == []; }
  }

  /** The secondary marks MarkAt writes in front of letter i */
  lemma SecondaryAt(m: Marks, i: int)
    ensures Count(MarkAt(m, i), 'ˌ') == if i != m.insert1 && i == m.insert2 && !m.primary then 1 else 0
  {
    var s := MarkAt(m, i);
    if s != "" { assert s[..0] == []; }
  }

  /** One step of the rendering, counting primary marks */
  lemma PrimaryStep(q: String, n: nat, m: Marks, links: bool)
    requires 0 < n <= |q|
    ensures Count(Rendered(q, n, m, links), 'ˈ') - Count(q[..n], 'ˈ')
      == Count(Rendered(q, n - 1, m, links), 'ˈ') - Count(q[..n - 1], 'ˈ')
        + (if n - 1 == m.insert1 || (n - 1 == m.insert2 && m.primary) then 1 else 0)
  {
    RenderedStep(q, n, m, links, 'ˈ');
    PrimaryAt(m, n - 1);
    CountPrefix(q, n, 'ˈ');
  }

  /** One step of the rendering, counting secondary marks */
  lemma SecondaryStep(q: String, n: nat, m: Marks, links: bool)
    requires 0 < n <= |q|
    ensures Count(Rendered(q, n, m, links), 'ˌ') - Count(q[..n], 'ˌ')
      == Count(Rendered(q, n - 1, m, links), 'ˌ') - Count(q[..n - 1], 'ˌ')
        + (if n - 1 != m.insert1 && n - 1 == m.insert2 && !m.primary then 1 else 0)
  {
    RenderedStep(q, n, m, links, 'ˌ');
    SecondaryAt(m, n - 1);
    CountPrefix(q, n, 'ˌ');
  }

  /** The primary marks of the rendering: those of q[..n], one at the first
      insertion point and one at a distinct second insertion point of a primary
      second stress, when these are among the letters. */
  lemma {:induction false} PrimaryMarks(q: String, n: nat, m: Marks, links: bool)
    requires n <= |q|
    ensures Count(Rendered(q, n, m, links), 'ˈ')
      == Count(q[..n], 'ˈ') + (if 0 <= m.insert1 < n then 1 else 0)
        + (if m.primary && 0 <= m.insert2 < n && m.insert2 != m.insert1 then 1 else 0)
  {
    if n > 0 {
      PrimaryMarks(q, n - 1, m, links);
      PrimaryStep(q, n, m, links);
    }
  }

  /** The secondary mark is written only for a secondary second stress, once,
      when its insertion point is among the letters and differs from the first. */
  lemma {:induction false} SecondaryMark(q: String, n: nat, m: Marks, links: bool)
    requires n <= |q|
    ensures Count(Rendered(q, n, m, links), 'ˌ')
      == Count(q[..n], 'ˌ') + (if !m.primary && 0 <= m.insert2 < n && m.insert2 != m.insert1 then 1 else 0)
  {
    if n > 0 {
      SecondaryMark(q, n - 1, m, links);
      SecondaryStep(q, n, m, links);
    }
  }

  /** With one insertion point, the rendering of the first n letters holds the
      marks of q[..n] and one more exactly when the insertion point is among
      those letters. */
  lemma OneMark(q: String, n: nat, m: Marks, links: bool)
    requires n <= |q| && m.insert2 == -1
    ensures Count(Rendered(q, n, m, links), 'ˈ') == Count(q[..n], 'ˈ') + (if 0 <= m.insert1 < n then 1 else 0)
  {
    PrimaryMarks(q, n, m, links);
  }

  /** With two insertion points, the rendering adds one mark (primary or
      secondary) per distinct insertion point among the letters. */
  lemma TwoMarks(q: String, n: nat, m: Marks, links: bool)
    requires n <= |q|
    ensures Count(Rendered(q, n, m, links), 'ˈ') + Count(Rendered(q, n, m, links), 'ˌ')
      == Count(q[..n], 'ˈ') + Count(q[..n], 'ˌ') + (if 0 <= m.insert1 < n then 1 else 0)
        + (if 0 <= m.insert2 < n && m.insert2 != m.insert1 then 1 else 0)
  {
    PrimaryMarks(q, n, m, links);
    SecondaryMark(q, n, m, links);
  }
}
