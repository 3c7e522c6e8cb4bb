# Bulgarian phonetic transcription, modelled in Dafny

`PhoneticConverter` turns Bulgarian words written in Cyrillic into an IPA
transcription. Its work proceeds in this order:

- **Lowercasing and phonotation.** The word is lowercased and rewritten as it is pronounced (`phonotation`):
  - a word-final voiced obstruent is devoiced;
  - inside each consonant cluster, `т`/`д` are dropped unless `р` follows, with `щ` read as `шт` while this happens (`analyzeCluster`);
  - the cluster undergoes regressive voicing assimilation after the progressive `св → сф` (`assimilate`).
- **Preparing the word.** An English loan word starting with `у` gets `w`. `дж` is held as the placeholder `j`, and a leading `дз` becomes `d͡z` when links are on.
- **Syllables and stress marks.** The word is cut into syllables (`getSyllables`). A stress mark `ˈ` (and `ˌ` for a secondary stress) is inserted before the syllable holding the stressed vowel.
- **Rendering.** Every letter is rendered by `convertLetter`. The rendering of `л` and `н` depends on the letter that follows.

There are three `toPhonetic` overloads:

- **One stress index.**
- **Two stress indexes.**
- **Variants.** A word without stress gets one transcription per vowel, each with that vowel taken as stressed. A word with combining stress marks (U+0300, U+0301) gets the one transcription those marks give. A passage of several words gets one transcription with sandhi between the words. Sandhi is the assimilation of the obstruents at the end of a word to those at the start of the next, when one of the two words is a clitic; it also switches off final devoicing.

The overloads call each other and communicate through three fields of the object: `passage`, `devoice` and `dashed`.

How the project is laid out:

- Each modelled stage is a pure function, and the Java loop that computes it is a method proved to compute that function.
- The converter itself is the class `Converter.PhoneticConverter`. It has the Java fields: the `links` setting, the clitics, the loan-word roots, and the three flags.
- Each overload is a method of that class. Its contract ties the result and the new flags to a function in `Transcription` of the settings, the old flags and the arguments.
- A Java exception that escapes a call (a string index or array index out of range) is the result `OutOfBounds`. The flags are left as they were when the exception was thrown.

The model follows the code as written in these places:

- **Line 283.** The second part of a hyphenated word is passed with both stress indexes unadjusted, and the parts come out in swapped order.
- **`дз` with links.** It moves the stress indexes even when they are -1 (lines 152, 322).
- **Insertion comparisons.** The one-stress insertion walk compares with `>=` (line 174), while the two-stress walk compares with `>` (lines 334, 336).
- **Splitting.** Splitting follows `String.split`: trailing empty parts are dropped, so `"-"` has no parts and the hyphen branches throw.
- **Two-mark removal (line 538).** It removes the letter at the second mark's old position from the already shortened word. That is the letter after the mark, and the call throws when the mark is the last character.
- **Gathering the next word's obstruents (line 484).** The loop reads past the end of a next word made only of obstruents, and throws.
- **The sandhi cut (line 501).** The word is cut by the share after it was enlarged for `ч → дж`. That drops the letter before the word's obstruents, and it throws when the enlarged share is longer than the word, as for `ч за`; see Findings. The passage uses this cut, and the corrected cut is stated beside it.
- **An exception inside a passage.** It leaves the `passage` field set, because line 512 is never reached.
- **The `dashed` field.** The one-stress overload clears it after a word it transcribes itself (line 224), and the two-stress overload sets it for a hyphenated word (line 266).

## Model

| member | source | states |
|---|---|---|
| Letters.IndexIn | src/main/java/com/agaidarov/bulgarianphonetictranscription/PhoneticConverter.java:1017-1026 | the result is -1 or an index of an entry equal to the letter, and every entry before it (every entry, for -1) differs from the letter |
| Letters.GetObstruentIndex | src/main/java/com/agaidarov/bulgarianphonetictranscription/PhoneticConverter.java:1017-1026 | the scan with early return yields the first matching index, or -1 |
| Letters.IndexInFirst | src/main/java/com/agaidarov/bulgarianphonetictranscription/PhoneticConverter.java:1019-1022 | an entry equal to the letter with no equal entry before it is the one found |
| Letters.IndexInAbsent | src/main/java/com/agaidarov/bulgarianphonetictranscription/PhoneticConverter.java:1025 | a letter in no entry gives -1 |
| Letters.SingleLetterIndex | src/main/java/com/agaidarov/bulgarianphonetictranscription/PhoneticConverter.java:40-41 | a one-letter string never matches the two-letter voiced entries `дж`, `дз` (indexes 6 and 7) |
| Letters.VoicedIndex | src/main/java/com/agaidarov/bulgarianphonetictranscription/PhoneticConverter.java:40 | looking a letter up in the voiced table gives its partner index, -1 for a letter that is not voiced |
| Letters.VoicelessIndex | src/main/java/com/agaidarov/bulgarianphonetictranscription/PhoneticConverter.java:41 | the same for the voiceless table, `х` at index 8 |
| Letters.ClassOfLetters | src/main/java/com/agaidarov/bulgarianphonetictranscription/PhoneticConverter.java:40-41 | a letter is voiced exactly when it is one of `дзбгвж`, voiceless exactly when it is one of `тспкфшчцх` |
| Letters.VowelClass | src/main/java/com/agaidarov/bulgarianphonetictranscription/PhoneticConverter.java:1030-1041 | a vowel is neither an obstruent nor a sonorant |
| JavaText.Find | src/main/java/com/agaidarov/bulgarianphonetictranscription/PhoneticConverter.java:137-139 | `indexOf` on a string: -1 exactly when there is no occurrence, otherwise the first occurrence |
| JavaText.IndexOfChar | src/main/java/com/agaidarov/bulgarianphonetictranscription/PhoneticConverter.java:637-638 | `indexOf` on a character from a start position: -1 or the first position holding it |
| JavaText.SplitParts | src/main/java/com/agaidarov/bulgarianphonetictranscription/PhoneticConverter.java:109 | every part of a split at a separator that occurs is shorter than the string and free of the separator |
| JavaText.JoinPieces | src/main/java/com/agaidarov/bulgarianphonetictranscription/PhoneticConverter.java:277 | joining the pieces of a split with the separator gives the string back |
| JavaText.ReplaceLength | src/main/java/com/agaidarov/bulgarianphonetictranscription/PhoneticConverter.java:968 | replacing with a replacement of the target's length keeps the length |
| JavaText.ReplaceAbsent | src/main/java/com/agaidarov/bulgarianphonetictranscription/PhoneticConverter.java:958 | replacing a target that does not occur changes nothing |
| JavaText.ReplaceInverse | src/main/java/com/agaidarov/bulgarianphonetictranscription/PhoneticConverter.java:654-658 | holding a target as a character the string lacks, then writing the target back for it, gives the string back (the `дж`/`j` round trip) |
| JavaText.ToLower | src/main/java/com/agaidarov/bulgarianphonetictranscription/PhoneticConverter.java:120 | lowercasing keeps the length, maps each character on its own and leaves no Latin or Cyrillic capital |
| JavaText.LowercaseKept | src/main/java/com/agaidarov/bulgarianphonetictranscription/PhoneticConverter.java:401 | a string already in lower case is left unchanged |
| JavaText.SplitNeighbours | src/main/java/com/agaidarov/bulgarianphonetictranscription/PhoneticConverter.java:421-441 | two neighbouring words of a passage together are shorter than the passage |
| Assimilation.Assimilate | src/main/java/com/agaidarov/bulgarianphonetictranscription/PhoneticConverter.java:965-1012 | the backward loop produces the `св → сф` rewrite with each letter retuned against the ORIGINAL class of its right neighbour (neither at the end and before `в`) |
| Assimilation.SvFixed | src/main/java/com/agaidarov/bulgarianphonetictranscription/PhoneticConverter.java:968 | the `св → сф` rewrite keeps the length of the cluster |
| Assimilation.Classify | src/main/java/com/agaidarov/bulgarianphonetictranscription/PhoneticConverter.java:979-999 | the class found by the two lookups is the letter's class, and the letter written for it is the retuned letter for every neighbour class |
| Assimilation.RetunedVoicing | src/main/java/com/agaidarov/bulgarianphonetictranscription/PhoneticConverter.java:992-1002 | a letter changes only when it is an obstruent of the other class than a neighbour that is an obstruent; `х` never changes; the result has two letters exactly for `ч`/`ц` before a voiced letter, which become `дж`/`дз`; a one-letter change takes the neighbour's class |
| Assimilation.RewrittenKeeps | src/main/java/com/agaidarov/bulgarianphonetictranscription/PhoneticConverter.java:1005-1008 | the last letter, a letter before `в` and a non-obstruent are copied unchanged |
| Assimilation.AssimilatedKeepsLast | src/main/java/com/agaidarov/bulgarianphonetictranscription/PhoneticConverter.java:970 | the last letter of the `св`-rewritten cluster is the last letter of the result |
| Assimilation.AssimilatedLength | src/main/java/com/agaidarov/bulgarianphonetictranscription/PhoneticConverter.java:996-1002 | assimilation never shortens a cluster |
| Assimilation.UniformUnchanged | src/main/java/com/agaidarov/bulgarianphonetictranscription/PhoneticConverter.java:993-1002 | a cluster without `св` whose obstruents share one class comes back unchanged |
| Assimilation.AssimilatedNoVowel | src/main/java/com/agaidarov/bulgarianphonetictranscription/PhoneticConverter.java:965-1012 | a cluster without vowels stays without vowels |
| Clusters.AnalyzeCluster | src/main/java/com/agaidarov/bulgarianphonetictranscription/PhoneticConverter.java:938-961 | the deletion loop with its moving bound, assimilation and the `шт → щ` rewrite compute the cluster analysis |
| Clusters.PrunedEnds | src/main/java/com/agaidarov/bulgarianphonetictranscription/PhoneticConverter.java:947 | the first and the last letter of the `щ`-expanded cluster are never deleted |
| Clusters.DroppedLetter | src/main/java/com/agaidarov/bulgarianphonetictranscription/PhoneticConverter.java:947-951 | a deleted letter is a `т` or `д` strictly inside the cluster and not followed by `р` |
| Clusters.PrunedCounts | src/main/java/com/agaidarov/bulgarianphonetictranscription/PhoneticConverter.java:947-951 | what is kept is a sub-multiset of the letters, and every letter other than `т`/`д` keeps its count |
| Clusters.PrunedLetters | src/main/java/com/agaidarov/bulgarianphonetictranscription/PhoneticConverter.java:947-951 | deletion brings in no new letter |
| Clusters.SingleLetterCluster | src/main/java/com/agaidarov/bulgarianphonetictranscription/PhoneticConverter.java:941-958 | a one-letter cluster comes back unchanged, `щ` included |
| Clusters.ClusterNoVowel | src/main/java/com/agaidarov/bulgarianphonetictranscription/PhoneticConverter.java:938-961 | a cluster without vowels stays without vowels |
| Phonotation.Phonotation | src/main/java/com/agaidarov/bulgarianphonetictranscription/PhoneticConverter.java:898-934 | final devoicing followed by the scan that analyses each consonant run between vowels and after the last one |
| Phonotation.DevoicedFinal | src/main/java/com/agaidarov/bulgarianphonetictranscription/PhoneticConverter.java:900-909 | the empty word throws exactly when devoicing; without devoicing nothing changes; with it the last letter is no longer voiced, a final `дж` becomes `ч` (one letter shorter), a final `voiced[k]` becomes `voiceless[k]`, and every earlier letter is kept |
| Phonotation.ScannedRuns | src/main/java/com/agaidarov/bulgarianphonetictranscription/PhoneticConverter.java:914-931 | the left-to-right scan with its running cluster equals rewriting every maximal consonant run in place |
| Phonotation.FirstVowelSpec | src/main/java/com/agaidarov/bulgarianphonetictranscription/PhoneticConverter.java:916-931 | the scan stops at the first vowel: no letter before it is a vowel |
| Phonotation.ClustersKeepVowels | src/main/java/com/agaidarov/bulgarianphonetictranscription/PhoneticConverter.java:914-931 | rewriting the consonant runs leaves the vowels of the word as they were, in order |
| Phonotation.PhonotatedKeepsVowels | src/main/java/com/agaidarov/bulgarianphonetictranscription/PhoneticConverter.java:914-931 | the vowels of the word come out the same and in the same order |
| Syllables.VowelPositions | src/main/java/com/agaidarov/bulgarianphonetictranscription/PhoneticConverter.java:661-666 | the listed positions hold vowels and increase |
| Syllables.VowelPositionsAll | src/main/java/com/agaidarov/bulgarianphonetictranscription/PhoneticConverter.java:661-666 | every vowel position is listed |
| Syllables.VowelList | src/main/java/com/agaidarov/bulgarianphonetictranscription/PhoneticConverter.java:661-666 | the list built by the loop is the vowel positions |
| Syllables.FrontPair | src/main/java/com/agaidarov/bulgarianphonetictranscription/PhoneticConverter.java:669 | the test "the second vowel is at position 1" holds exactly when the word starts with two vowels |
| Syllables.FrontFoldedSpec | src/main/java/com/agaidarov/bulgarianphonetictranscription/PhoneticConverter.java:669-670 | after the leading fold, a position is listed exactly when it holds a vowel and is not a position 0 followed by a vowel |
| Syllables.NucleiSpec | src/main/java/com/agaidarov/bulgarianphonetictranscription/PhoneticConverter.java:669-674 | a word of two letters or more has nuclei, and a position is a nucleus exactly when it satisfies the folding rule at both ends |
| Syllables.BackNuclei | src/main/java/com/agaidarov/bulgarianphonetictranscription/PhoneticConverter.java:671-674 | a word ending in two vowels keeps both as nuclei exactly as the folding rule says |
| Syllables.ClusterArray | src/main/java/com/agaidarov/bulgarianphonetictranscription/PhoneticConverter.java:679-690 | the new array holds the consonant gaps before, between and after the nuclei |
| Syllables.SplitIndex | src/main/java/com/agaidarov/bulgarianphonetictranscription/PhoneticConverter.java:700-707 | the split point is half of the gap by integer division (all of it after the last nucleus), not counting a final `ь` |
| Syllables.CutSyllable | src/main/java/com/agaidarov/bulgarianphonetictranscription/PhoneticConverter.java:697-713 | one loop step returns syllable i with `дж` written out, and leaves in the array the rest of the next gap and nothing else changed |
| Syllables.Cut | src/main/java/com/agaidarov/bulgarianphonetictranscription/PhoneticConverter.java:692-716 | the loop yields every syllable in order |
| Syllables.CutPart | src/main/java/com/agaidarov/bulgarianphonetictranscription/PhoneticConverter.java:660-716 | one lowercase part is cut, or throws when the word is shorter than two letters or no nucleus survives |
| Syllables.Concatenated | src/main/java/com/agaidarov/bulgarianphonetictranscription/PhoneticConverter.java:641-651 | the bigger array holds the syllables of the first part, then those of the second |
| Syllables.GetSyllables | src/main/java/com/agaidarov/bulgarianphonetictranscription/PhoneticConverter.java:626-717 | no syllables for several words, the parts around the first hyphen cut one after the other, otherwise the lowercased word with `дж` held as `j` |
| Syllables.SpelledWhole | src/main/java/com/agaidarov/bulgarianphonetictranscription/PhoneticConverter.java:692-716 | when the word does not end in `ь`, the syllables as cut spell the word |
| Syllables.SyllablesSpell | src/main/java/com/agaidarov/bulgarianphonetictranscription/PhoneticConverter.java:692-716 | the first k syllables as cut, concatenated, are the word up to the point the loop has reached, with `дж` written back for `j` |
| Syllables.CutSpellsWord | src/main/java/com/agaidarov/bulgarianphonetictranscription/PhoneticConverter.java:669-716 | a part of two letters or more, not ending in `ь` and keeping a nucleus, gets one syllable per nucleus, and the syllables concatenated give back the part with `дж` written back for `j` |
| Syllables.SyllabifySpellsWord | src/main/java/com/agaidarov/bulgarianphonetictranscription/PhoneticConverter.java:626-716 | a lowercase word without a space, a hyphen or a Latin `j` that, once `дж` is held as `j`, has two letters or more, does not end in `ь` and keeps a nucleus, gets one syllable per nucleus, and its syllables concatenated give back the word |
| Phones.StressedLetters | src/main/java/com/agaidarov/bulgarianphonetictranscription/PhoneticConverter.java:725-846 | the stressed flag changes the rendering exactly for `а о у ъ ю я л н` |
| Phones.LinkedLetters | src/main/java/com/agaidarov/bulgarianphonetictranscription/PhoneticConverter.java:725-846 | the links setting changes the rendering exactly for `ц ч j`, and `j` renders as `d͡ʒ` with links and `dʒ` without |
| Phones.PassThrough | src/main/java/com/agaidarov/bulgarianphonetictranscription/PhoneticConverter.java:725-846 | a character is rendered as itself exactly when the switch has no case for it |
| Phones.NoMarkRendered | src/main/java/com/agaidarov/bulgarianphonetictranscription/PhoneticConverter.java:725-846 | no letter renders as a stress mark, and a stress mark renders as itself |
| Phones.MarkCount | src/main/java/com/agaidarov/bulgarianphonetictranscription/PhoneticConverter.java:725-846 | rendering a letter produces a stress mark only when the letter is that mark |
| Phones.MarkFor | src/main/java/com/agaidarov/bulgarianphonetictranscription/PhoneticConverter.java:349-357 | at most one mark before a letter: primary at the first insertion point, and at the second when the second stress is primary |
| Phones.LetterFlag | src/main/java/com/agaidarov/bulgarianphonetictranscription/PhoneticConverter.java:198-218 | the flag is the stress test for a letter other than `л`/`н`; `л` is flagged exactly before `и`/`е`, `н` exactly before `к`/`г` |
| Phones.Render | src/main/java/com/agaidarov/bulgarianphonetictranscription/PhoneticConverter.java:191-222 | the rendering loop builds the marks and the rendered letters one position after the other |
| Phones.PrimaryMarks | src/main/java/com/agaidarov/bulgarianphonetictranscription/PhoneticConverter.java:345-381 | the rendering has the input's `ˈ` plus one for the first insertion point and one for a distinct primary second point |
| Phones.SecondaryMark | src/main/java/com/agaidarov/bulgarianphonetictranscription/PhoneticConverter.java:351-357 | the rendering has the input's `ˌ` plus one for a distinct secondary second point |
| Phones.OneMark | src/main/java/com/agaidarov/bulgarianphonetictranscription/PhoneticConverter.java:191-222 | the one-stress rendering adds exactly one `ˈ`, when the insertion point falls inside the word, to those already there |
| Phones.TwoMarks | src/main/java/com/agaidarov/bulgarianphonetictranscription/PhoneticConverter.java:345-381 | the rendering adds one mark per distinct insertion point |
| Stress.StressIndexSpec | src/main/java/com/agaidarov/bulgarianphonetictranscription/PhoneticConverter.java:1045-1068 | at most two indexes, none exactly when neither mark occurs; they are the first and second occurrences of the grave mark if there is one, otherwise of the acute |
| Stress.Collapsed | src/main/java/com/agaidarov/bulgarianphonetictranscription/PhoneticConverter.java:137-145 | after collapsing no `дж` is left, and the word is no longer |
| Stress.CollapsedTracksStress | src/main/java/com/agaidarov/bulgarianphonetictranscription/PhoneticConverter.java:137-145 | an index of a vowel still points at that vowel after every `дж` became `j` |
| Stress.CollapsedWord | src/main/java/com/agaidarov/bulgarianphonetictranscription/PhoneticConverter.java:307-317 | the collapsed word does not depend on the index carried along |
| Stress.CollapseDzh | src/main/java/com/agaidarov/bulgarianphonetictranscription/PhoneticConverter.java:307-317 | the loop collapses the word and moves both indexes as the collapse of each on its own would |
| Stress.InsertionPoint | src/main/java/com/agaidarov/bulgarianphonetictranscription/PhoneticConverter.java:172-181 | the walk over the syllables gives the one-stress insertion point |
| Stress.InsertionStart | src/main/java/com/agaidarov/bulgarianphonetictranscription/PhoneticConverter.java:172-181 | no mark exactly when there are no syllables or they end before the index; otherwise the mark goes at the start of the first syllable whose end reaches the index (`>=`) |
| Stress.InsertionPoints | src/main/java/com/agaidarov/bulgarianphonetictranscription/PhoneticConverter.java:326-338 | the walk gives the two-stress insertion points |
| Stress.FirstInsertion | src/main/java/com/agaidarov/bulgarianphonetictranscription/PhoneticConverter.java:330-335 | the first point is the one-stress walk for the next index, so `>` against `>=` differs by one place |
| Stress.KeepsFirst | src/main/java/com/agaidarov/bulgarianphonetictranscription/PhoneticConverter.java:334-337 | a first point once found is never moved |
| Stress.DistinctInsertions | src/main/java/com/agaidarov/bulgarianphonetictranscription/PhoneticConverter.java:330-338 | over non-empty syllables the two points never coincide |
| Words.LoanFixedSpec | src/main/java/com/agaidarov/bulgarianphonetictranscription/PhoneticConverter.java:124-134 | the empty word throws; otherwise the length and every letter after the first are kept, and the first is `w` exactly when it was, or was `у` before a loan-word root |
| Words.LoanWord | src/main/java/com/agaidarov/bulgarianphonetictranscription/PhoneticConverter.java:124-134 | the loop over the roots computes the loan-word fix |
| Words.CountVowels | src/main/java/com/agaidarov/bulgarianphonetictranscription/PhoneticConverter.java:161-166 | the count is the number of vowels |
| Words.LinkDz | src/main/java/com/agaidarov/bulgarianphonetictranscription/PhoneticConverter.java:149-153 | `d͡z` replaces a leading `дз` with links on, lengthening the word by one and moving both indexes |
| Words.DzShift | src/main/java/com/agaidarov/bulgarianphonetictranscription/PhoneticConverter.java:149-153 | after `дз` is spelled `d͡z`, every later letter sits one place further on |
| Words.DzKeepsVowel | src/main/java/com/agaidarov/bulgarianphonetictranscription/PhoneticConverter.java:149-153 | the first index still points at its vowel after the `d͡z` spelling |
| Words.PrepareSpec | src/main/java/com/agaidarov/bulgarianphonetictranscription/PhoneticConverter.java:120-153 | when the stress index points at a vowel of the lowercased, phonotated and loan-fixed word, the prepared word's stress index points at that same vowel after the `дж` collapse and the `d͡z` spelling |
| Words.PrepareWord | src/main/java/com/agaidarov/bulgarianphonetictranscription/PhoneticConverter.java:120-153 | lowercasing, phonotation, the loan-word fix, the `дж` collapse and the `дз` link, in that order |
| Words.TranscribeOne | src/main/java/com/agaidarov/bulgarianphonetictranscription/PhoneticConverter.java:120-222 | the one-stress body after its checks computes the one-stress word transcription |
| Words.TranscribeTwo | src/main/java/com/agaidarov/bulgarianphonetictranscription/PhoneticConverter.java:292-381 | the two-stress body after its checks computes the two-stress word transcription |
| Words.OneStressMark | src/main/java/com/agaidarov/bulgarianphonetictranscription/PhoneticConverter.java:155-196 | the one-stress transcription adds at most one `ˈ` to the prepared word, and none without a stress or for a single-vowel word that is not part of a hyphenated one |
| Words.TwoStressMarks | src/main/java/com/agaidarov/bulgarianphonetictranscription/PhoneticConverter.java:326-381 | the two-stress transcription adds at most two marks, and no `ˌ` when the second stress is primary |
| Sandhi.TailLength | src/main/java/com/agaidarov/bulgarianphonetictranscription/PhoneticConverter.java:464-473 | the gathered end of the word is its longest run of final obstruents |
| Sandhi.LeadLength | src/main/java/com/agaidarov/bulgarianphonetictranscription/PhoneticConverter.java:478-487 | the gathered start of the next word is its longest run of initial obstruents |
| Sandhi.Obstruent | src/main/java/com/agaidarov/bulgarianphonetictranscription/PhoneticConverter.java:464-480 | the two table lookups together test for an obstruent |
| Sandhi.TailCluster | src/main/java/com/agaidarov/bulgarianphonetictranscription/PhoneticConverter.java:464-473 | the backward loop gathers exactly that final run |
| Sandhi.HeadCluster | src/main/java/com/agaidarov/bulgarianphonetictranscription/PhoneticConverter.java:475-487 | the forward loop appends the initial run (only after a non-empty final run) and clears devoice once a letter is taken; it runs off the end exactly when the whole next word is obstruents |
| Sandhi.Gathered | src/main/java/com/agaidarov/bulgarianphonetictranscription/PhoneticConverter.java:464-487 | the cluster the two loops gather holds only obstruents, the word's final ones first |
| Sandhi.Share | src/main/java/com/agaidarov/bulgarianphonetictranscription/PhoneticConverter.java:489-497 | the number of letters line 501 replaces is the word's final obstruents, or one more, and one more only when the assimilated cluster grew; it never exceeds the assimilated cluster |
| Sandhi.TailStop | src/main/java/com/agaidarov/bulgarianphonetictranscription/PhoneticConverter.java:464-473 | a final run of obstruents preceded by a non-obstruent is the gathered tail |
| Sandhi.LeadStop | src/main/java/com/agaidarov/bulgarianphonetictranscription/PhoneticConverter.java:478-487 | the forward loop stops at the first non-obstruent of the next word, and takes nothing after an empty tail |
| Sandhi.LeadAll | src/main/java/com/agaidarov/bulgarianphonetictranscription/PhoneticConverter.java:478-487 | a next word made only of obstruents is gathered whole, which is where line 484 reads past its end |
| Sandhi.Bridge | src/main/java/com/agaidarov/bulgarianphonetictranscription/PhoneticConverter.java:458-503 | gathering, assimilation and the cut of line 501 as written compute the bridged word and the devoice flag; the cut throws when the share is longer than the word |
| Sandhi.JoinWords | src/main/java/com/agaidarov/bulgarianphonetictranscription/PhoneticConverter.java:441-505 | the clitic test, the two devoicing exceptions and the bridge as written compute the word handed on and the devoice flag |
| Sandhi.SandhiSpec | src/main/java/com/agaidarov/bulgarianphonetictranscription/PhoneticConverter.java:441-505 | sandhi only ever turns devoicing off; without a clitic on either side, or at the last word, the word is unchanged; a word handed on keeps its length; a changed word has devoicing off, keeps every letter before the replaced share, and its vowels are those of that prefix: all of the word's vowels when only the final obstruents were replaced |
| Sandhi.BridgedAsWrittenSpec | src/main/java/com/agaidarov/bulgarianphonetictranscription/PhoneticConverter.java:458-503 | the same guarantees for the bridge as written on its own |
| Sandhi.BridgedSpec | src/main/java/com/agaidarov/bulgarianphonetictranscription/PhoneticConverter.java:458-503 | for the corrected cut: devoicing is only turned off, and a changed word keeps everything before its final obstruents, grows by at most one letter and keeps all its vowels |
| Sandhi.BridgedCut | src/main/java/com/agaidarov/bulgarianphonetictranscription/PhoneticConverter.java:489-497 | the cluster and the share the loops compute are the gathered cluster and the share, and the share fits in the assimilated cluster |
| Sandhi.CutTooShort | src/main/java/com/agaidarov/bulgarianphonetictranscription/PhoneticConverter.java:496-501 | on `ключ за`, the cut as written gives `клдж`, which has lost the vowel `ю`; the corrected cut gives `клюдж` |
| Sandhi.CutPastStart | src/main/java/com/agaidarov/bulgarianphonetictranscription/PhoneticConverter.java:496-501 | on `ч за`, the cut as written reaches before the start of the word and the passage throws; the corrected cut gives `дж` |
| Transcription.SplitWords | src/main/java/com/agaidarov/bulgarianphonetictranscription/PhoneticConverter.java:421 | every word of a passage, and every two neighbouring words, are shorter than the passage |
| Transcription.HyphenatedParts | src/main/java/com/agaidarov/bulgarianphonetictranscription/PhoneticConverter.java:107-118 | the one-stress overload transcribes a hyphenated word as the two-stress one does with one stress per part, giving -1 to the part the stress is not in |
| Transcription.Hyphenated2None | src/main/java/com/agaidarov/bulgarianphonetictranscription/PhoneticConverter.java:264-280 | a word made only of hyphens has no parts, and the two-stress overload throws |
| Transcription.Hyphenated2Each | src/main/java/com/agaidarov/bulgarianphonetictranscription/PhoneticConverter.java:280-281 | stresses on both sides of the hyphen put one in each part, the second moved past the hyphen |
| Transcription.Hyphenated2Before | src/main/java/com/agaidarov/bulgarianphonetictranscription/PhoneticConverter.java:282-283 | stresses both before the hyphen take the swapped, unadjusted branch |
| Transcription.Hyphenated2After | src/main/java/com/agaidarov/bulgarianphonetictranscription/PhoneticConverter.java:284-289 | stresses both after the hyphen are both moved past it |
| Transcription.PassageStep | src/main/java/com/agaidarov/bulgarianphonetictranscription/PhoneticConverter.java:433-510 | a word that throws ends the passage with its exception; otherwise its transcription and a space are appended and devoicing is back on for the next word |
| Transcription.OneStressKeepsPassage | src/main/java/com/agaidarov/bulgarianphonetictranscription/PhoneticConverter.java:78-227 | transcribing a word without a space never changes the passage field, through every fallback and hyphen split |
| Transcription.TwoStressKeepsPassage | src/main/java/com/agaidarov/bulgarianphonetictranscription/PhoneticConverter.java:236-384 | the same for the two-stress overload |
| Transcription.HyphenatedKeepsPassage | src/main/java/com/agaidarov/bulgarianphonetictranscription/PhoneticConverter.java:107-118 | the one-stress hyphen split keeps the passage field |
| Transcription.Hyphenated2KeepsPassage | src/main/java/com/agaidarov/bulgarianphonetictranscription/PhoneticConverter.java:264-289 | the two-stress hyphen split keeps the passage field in all three branches |
| Transcription.OneMarkedKeepsPassage | src/main/java/com/agaidarov/bulgarianphonetictranscription/PhoneticConverter.java:523-533 | a word with one stress mark keeps the passage field |
| Transcription.TwoMarkedKeepsPassage | src/main/java/com/agaidarov/bulgarianphonetictranscription/PhoneticConverter.java:534-545 | a word with two stress marks keeps the passage field |
| Transcription.VariantsCount | src/main/java/com/agaidarov/bulgarianphonetictranscription/PhoneticConverter.java:519-594 | for a word without a space, the passage field is unchanged. A successful call returns one transcription when the word has stress marks, is in a passage, comes after sandhi that turned devoicing off, or has no vowel; otherwise one per vowel |
| Transcription.UnmarkedCount | src/main/java/com/agaidarov/bulgarianphonetictranscription/PhoneticConverter.java:552-594 | an unmarked word gets one transcription or one per vowel, under the same conditions |
| Transcription.EachCount | src/main/java/com/agaidarov/bulgarianphonetictranscription/PhoneticConverter.java:583-594 | the loop over the vowels adds one transcription per vowel, or stops after one inside a passage |
| Transcription.TwoMarkedRun | src/main/java/com/agaidarov/bulgarianphonetictranscription/PhoneticConverter.java:534-545 | with the two marks removed as written, the word goes to the two-stress overload with a primary second stress, one letter before each old mark position |
| Transcription.TwoMarkedShort | src/main/java/com/agaidarov/bulgarianphonetictranscription/PhoneticConverter.java:534-545 | when the second mark was the last character, the second removal throws |
| Converter.PhoneticConverter.constructor | src/main/java/com/agaidarov/bulgarianphonetictranscription/PhoneticConverter.java:60-70 | the default clitics and loan-word roots, outside a passage, devoicing on, not dashed |
| Converter.PhoneticConverter.SetLoanWords | src/main/java/com/agaidarov/bulgarianphonetictranscription/PhoneticConverter.java:850-852 | only the loan-word roots change, to the given ones |
| Converter.PhoneticConverter.SetClitics | src/main/java/com/agaidarov/bulgarianphonetictranscription/PhoneticConverter.java:860-865 | only the clitics change, to the given words |
| Converter.PhoneticConverter.ToPhonetic | src/main/java/com/agaidarov/bulgarianphonetictranscription/PhoneticConverter.java:78-227 | the settings are unchanged. The result and the new flags are the one-stress run from the old flags: a passage or a stress off a vowel goes to the first variant (retried once on an exception), a hyphen splits the word, and otherwise the word is transcribed and `dashed` is cleared |
| Converter.PhoneticConverter.HyphenatedOne | src/main/java/com/agaidarov/bulgarianphonetictranscription/PhoneticConverter.java:107-118 | the hyphen branch of the one-stress overload: each part with the stress if it falls there, joined by `-` |
| Converter.PhoneticConverter.ToPhoneticTwoStresses | src/main/java/com/agaidarov/bulgarianphonetictranscription/PhoneticConverter.java:236-384 | the settings are unchanged. The result and the new flags are the two-stress run from the old flags: invalid indexes go to the first variant, a hyphen sets `dashed` and splits, and otherwise the word is transcribed with two marks |
| Converter.PhoneticConverter.HyphenatedTwo | src/main/java/com/agaidarov/bulgarianphonetictranscription/PhoneticConverter.java:264-289 | the three cases of the hyphen split by where the smaller and the larger index fall |
| Converter.PhoneticConverter.StressInEachPart | src/main/java/com/agaidarov/bulgarianphonetictranscription/PhoneticConverter.java:280-281 | one stress in each part, the second part required |
| Converter.PhoneticConverter.StressesBefore | src/main/java/com/agaidarov/bulgarianphonetictranscription/PhoneticConverter.java:282-283 | as written: the part after the hyphen with both indexes unchanged, then the unstressed part before it |
| Converter.PhoneticConverter.StressesAfter | src/main/java/com/agaidarov/bulgarianphonetictranscription/PhoneticConverter.java:284-289 | the unstressed first part, then the second with both indexes moved past the hyphen |
| Converter.PhoneticConverter.ToPhoneticVariants | src/main/java/com/agaidarov/bulgarianphonetictranscription/PhoneticConverter.java:399-595 | the settings are unchanged. The result and the new flags are the variants run from the old flags, for a passage (with the sandhi cut of line 501 as written), a word with one or two marks, or an unmarked word |
| Converter.PhoneticConverter.RemoveOneMark | src/main/java/com/agaidarov/bulgarianphonetictranscription/PhoneticConverter.java:523-533 | the mark is removed; a clitic inside a passage is transcribed without stress, any other word with the letter before the mark stressed |
| Converter.PhoneticConverter.RemoveTwoMarks | src/main/java/com/agaidarov/bulgarianphonetictranscription/PhoneticConverter.java:534-545 | both marks are removed as written, and the word goes to the two-stress overload |
| Converter.PhoneticConverter.AllVariants | src/main/java/com/agaidarov/bulgarianphonetictranscription/PhoneticConverter.java:552-594 | one unstressed transcription, or one per vowel, stopping after the first in a passage |
| Converter.PhoneticConverter.TranscribePassage | src/main/java/com/agaidarov/bulgarianphonetictranscription/PhoneticConverter.java:405-517 | the words are transcribed in order with the passage flag set, each after sandhi as written, and the single trimmed transcription is returned with the flag cleared; a word that throws ends the passage with the flag still set |
| Converter.PhoneticConverter.TranscribeWord | src/main/java/com/agaidarov/bulgarianphonetictranscription/PhoneticConverter.java:435-507 | one word of the passage: sandhi as written with the next word (none after the last), including the exceptions of lines 484 and 501, then the first variant of the word handed on |

## Left out

- `readWebsite` and `getStressed` fetch and scrape a web page; the network is not modelled. The `searchWebsite` branches of `toPhonetic(String)` (lines 411-419, 561-574) are taken as disabled: the constructor accepts the setting and ignores it.
- The `System.out.println` warnings are dropped; only the values returned after them are modelled.
- `String.toLowerCase` is modelled for the Latin and Cyrillic capitals (U+0041-U+005A, U+0400-U+042F) only; other characters are left as they are.
- `Arrays.parallelSort` and `Arrays.binarySearch` on the clitics are modelled as membership in a set; setting clitics keeps their entries, not their order.
- Transcription.VariantsCount: inside a passage the Java array returned for an unmarked word keeps one entry per vowel, all but the first `null` (lines 584-592); the model returns only the filled first entry, so the count stated is that of the filled entries.
- The kind of exception that escapes (string index, array index or list index) is not distinguished; all are the one result `OutOfBounds`, which is what the catches at lines 100 and 257 react to.
- `Main.java` is a demonstration program that only prints results and is not part of this model.

## Findings

| source | as written | input that shows it | evidently intended | confidence | as-written member | corrected member |
|---|---|---|---|---|---|---|
| src/main/java/com/agaidarov/bulgarianphonetictranscription/PhoneticConverter.java:496-501 | after `letterIndex` is enlarged for `ч → дж`, the same enlarged value is used to cut the end off the word, so one letter before the word's obstruents is lost, and a word no longer than the enlarged share makes the cut throw | `ключ за` (`за` is a clitic): the cluster `чз` becomes `джз`, and the word becomes `клдж`, without its vowel; `ч за` throws | cut only the word's own obstruents and put back its enlarged share of the cluster: `клюдж`, and `дж` for `ч за` | not executed | Sandhi.BridgedAsWritten, Sandhi.CutTooShort, Sandhi.CutPastStart | Sandhi.Bridged, Sandhi.BridgedSpec |
