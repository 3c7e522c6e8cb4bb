/** The few java.lang.String operations the converter relies on, with their
    Java meaning: prefix tests, indexOf, replace, split and trim. */
module JavaText {

  type String = seq<char>

  /** String.startsWith */
  predicate StartsWith(s: String, prefix: String) {
    |prefix| <= |s| && s[..|prefix|] == prefix
  }

  /** String.endsWith */
  predicate EndsWith(s: String, suffix: String) {
    |suffix| <= |s| && s[|s| - |suffix|..] == suffix
  }

  /** sub occurs in s at position j */
  predicate At(s: String, j: int, sub: String) {
    0 <= j && j + |sub| <= |s| && s[j..j + |sub|] == sub
  }

  /** An occurrence in the tail of s is an occurrence in s one place further on. */
  lemma AtShift(s: String, j: int, sub: String)
    requires |s| > 0 && j >= 0
    ensures At(s[1..], j, sub) <==> At(s, j + 1, sub)
  {
    if 0 <= j && j + 1 + |sub| <= |s| {
      assert s[1..][j..j + |sub|] == s[j + 1..j + 1 + |sub|];
    }
  }

  /** String.indexOf(String): the first position of sub in s, or -1 */
  function Find(s: String, sub: String): (i: int)
    requires |sub| > 0
    ensures i == -1 || At(s, i, sub)
    ensures i == -1 ==> forall j :: !At(s, j, sub)
    ensures forall j :: 0 <= j < i ==> !At(s, j, sub)
    decreases |s|
  {
    if |s| < |sub| then -1
    else if s[..|sub|] == sub then 0
    else
      var k := Find(s[1..], sub);
      assert forall j :: 0 < j ==> At(s, j, sub) == At(s[1..], j - 1, sub) by {
        forall j | 0 < j ensures At(s, j, sub) == At(s[1..], j - 1, sub) {
          AtShift(s, j - 1, sub);
        }
      }
      if k < 0 then -1 else k + 1
  }

  /** String.indexOf(char, fromIndex) for a non-negative fromIndex */
  function IndexOfChar(s: String, c: char, from: nat): (i: int)
    ensures i == -1 || (from <= i < |s| && s[i] == c)
    ensures forall j :: from <= j < |s| && (i == -1 || j < i) ==> s[j] != c
    decreases |s| - from
  {
    if from >= |s| then -1
    else if s[from] == c then from
    else IndexOfChar(s, c, from + 1)
  }

  /** A character that occurs in s is found. */
  lemma IndexOfCharIn(s: String, c: char)
    requires c in s
    ensures 0 <= IndexOfChar(s, c, 0) < |s|
  {
    var j :| 0 <= j < |s| && s[j] == c;
  }

  /** String.replace(CharSequence, CharSequence): every occurrence of a non-empty
      target, found left to right without overlaps, is replaced */
  function Replace(s: String, target: String, replacement: String): String
    requires |target| > 0
    decreases |s|
  {
    if |s| < |target| then s
    else if s[..|target|] == target then replacement + Replace(s[|target|..], target, replacement)
    else [s[0]] + Replace(s[1..], target, replacement)
  }

  /** A character absent from s occurs nowhere in it as a one-letter string. */
  lemma AbsentChar(s: String, c: char)
    requires c !in s
    ensures forall j :: !At(s, j, [c])
  {
    forall j ensures !At(s, j, [c]) {
      if 0 <= j < |s| {
        assert s[j..j + 1][0] == s[j];
      }
    }
  }

  /** Replacing a target that does not occur changes nothing. */
  lemma {:induction false} ReplaceAbsent(s: String, target: String, replacement: String)
    requires |target| > 0 && forall j :: !At(s, j, target)
    ensures Replace(s, target, replacement) == s
    decreases |s|
  {
    if |s| >= |target| {
      assert !At(s, 0, target);
      assert s[..|target|] != target;
      forall j | 0 <= j ensures At(s[1..], j, target) ==> At(s, j + 1, target) {
        AtShift(s, j, target);
      }
      ReplaceAbsent(s[1..], target, replacement);
    }
  }

  /** Holding a target as a character the string does not contain, then
      writing the target back for that character, gives the string back. */
  lemma {:induction false} ReplaceInverse(s: String, target: String, c: char)
    requires |target| > 0 && c !in s
    ensures Replace(Replace(s, target, [c]), [c], target) == s
    decreases |s|
  {
    if |s| < |target| {
      AbsentChar(s, c);
      ReplaceAbsent(s, [c], target);
    } else if s[..|target|] == target {
      var rest := Replace(s[|target|..], target, [c]);
      assert c !in s[|target|..] by {
        forall x | x in s[|target|..] ensures x in s { }
      }
      ReplaceInverse(s[|target|..], target, c);
      assert ([c] + rest)[..1] == [c] && ([c] + rest)[1..] == rest;
      assert target + s[|target|..] == s;
    } else {
      var rest := Replace(s[1..], target, [c]);
      assert c !in s[1..] by {
        forall x | x in s[1..] ensures x in s { }
      }
      ReplaceInverse(s[1..], target, c);
      assert ([s[0]] + rest)[..1] == [s[0]] && ([s[0]] + rest)[1..] == rest;
      assert [s[0]] + s[1..] == s;
    }
  }

  /** A replacement as long as its target keeps the length. */
  lemma {:induction false} ReplaceLength(s: String, target: String, replacement: String)
    requires |target| > 0 && |replacement| == |target|
    ensures |Replace(s, target, replacement)| == |s|
    decreases |s|
  {
    if |s| >= |target| {
      if s[..|target|] == target {
        ReplaceLength(s[|target|..], target, replacement);
      } else {
        ReplaceLength(s[1..], target, replacement);
      }
    }
  }

  /** Every character of the result comes from s or from the replacement. */
  lemma {:induction false} ReplaceChars(s: String, target: String, replacement: String)
    requires |target| > 0
    ensures forall x :: x in Replace(s, target, replacement) ==> x in s || x in replacement
    decreases |s|
  {
    if |s| >= |target| {
      if s[..|target|] == target {
        ReplaceChars(s[|target|..], target, replacement);
        assert forall x :: x in s[|target|..] ==> x in s;
      } else {
        ReplaceChars(s[1..], target, replacement);
        assert forall x :: x in s[1..] ==> x in s;
      }
    }
  }

  /** Replacing a single character distributes over concatenation. */
  lemma {:induction false} ReplaceCharConcat(a: String, b: String, target: char, replacement: String)
    ensures Replace(a + b, [target], replacement)
         == Replace(a, [target], replacement) + Replace(b, [target], replacement)
    decreases |a|
  {
    if |a| > 0 {
      assert (a + b)[1..] == a[1..] + b;
      assert (a + b)[..1] == a[..1];
      assert (a + b)[1..] == (a + b)[|[target]|..];
      ReplaceCharConcat(a[1..], b, target, replacement);
    } else {
      assert a + b == b;
    }
  }

  /** All the pieces of s between occurrences of sep, empty ones included */
  function Pieces(s: String, sep: char): (ps: seq<String>)
    ensures |ps| >= 1
    decreases |s|
  {
    if |s| == 0 then [[]]
    else
      var rest := Pieces(s[1..], sep);
      if s[0] == sep then [[]] + rest else [[s[0]] + rest[0]] + rest[1..]
  }

  /** The pieces of s joined again with sep */
  function Join(ps: seq<String>, sep: char): String
    requires |ps| >= 1
    decreases |ps|
  {
    if |ps| == 1 then ps[0] else ps[0] + [sep] + Join(ps[1..], sep)
  }

  /** Splitting and joining again gives back the string. */
  lemma {:induction false} JoinPieces(s: String, sep: char)
    ensures Join(Pieces(s, sep), sep) == s
    decreases |s|
  {
    if |s| > 0 {
      JoinPieces(s[1..], sep);
      var rest := Pieces(s[1..], sep);
      if s[0] != sep && |rest| > 1 {
        assert Pieces(s, sep)[1..] == rest[1..];
      }
      if s[0] == sep {
        assert Pieces(s, sep)[1..] == rest;
      }
    }
  }

  /** No piece contains sep, and each piece is as short as s without its separators. */
  lemma {:induction false} PiecesBound(s: String, sep: char)
    ensures forall p :: p in Pieces(s, sep) ==> sep !in p && |p| + multiset(s)[sep] <= |s|
    decreases |s|
  {
    if |s| > 0 {
      PiecesBound(s[1..], sep);
      assert s == [s[0]] + s[1..];
      assert multiset(s) == multiset([s[0]]) + multiset(s[1..]);
    }
  }

  function DropTrailingEmpty(ps: seq<String>): (qs: seq<String>)
    ensures |qs| <= |ps| && qs == ps[..|qs|]
    decreases |ps|
  {
    if |ps| > 0 && ps[|ps| - 1] == [] then DropTrailingEmpty(ps[..|ps| - 1]) else ps
  }

  /** String.split with a one-character separator: no match gives the string
      itself; otherwise the pieces, without trailing empty ones */
  function Split(s: String, sep: char): seq<String> {
    if sep !in s then [s] else DropTrailingEmpty(Pieces(s, sep))
  }

  /** When sep occurs in s, every part of the split is shorter than s and free of sep. */
  lemma SplitParts(s: String, sep: char)
    requires sep in s
    ensures forall p :: p in Split(s, sep) ==> |p| < |s| && sep !in p
  {
    PiecesBound(s, sep);
  }

  /** A character absent from s is absent from every piece of it. */
  lemma {:induction false} PiecesFree(s: String, sep: char, x: char)
    requires x !in s
    ensures forall p :: p in Pieces(s, sep) ==> x !in p
    decreases |s|
  {
    if |s| > 0 {
      assert x !in s[1..] by {
        forall k | 0 <= k < |s[1..]| ensures s[1..][k] != x {
          assert s[1..][k] == s[k + 1];
        }
      }
      PiecesFree(s[1..], sep, x);
      var rest := Pieces(s[1..], sep);
      assert rest[0] in rest;
      forall p | p in rest[1..] ensures x !in p {
        var k :| 0 <= k < |rest[1..]| && rest[1..][k] == p;
        assert rest[k + 1] == p;
      }
    }
  }

  /** A character absent from s is absent from every part of its split. */
  lemma SplitFree(s: String, sep: char, x: char)
    requires x !in s
    ensures forall p :: p in Split(s, sep) ==> x !in p
  {
    if sep in s {
      PiecesFree(s, sep, x);
      var ps := Pieces(s, sep);
      var qs := DropTrailingEmpty(ps);
      forall p | p in qs ensures x !in p {
        var k :| 0 <= k < |qs| && qs[k] == p;
        assert ps[k] == p;
      }
    }
  }

  /** Two neighbouring parts of a split, with the separator between them, fit in s. */
  lemma SplitNeighbours(s: String, sep: char, i: nat)
    requires sep in s && i + 1 < |Split(s, sep)|
    ensures |Split(s, sep)[i]| + |Split(s, sep)[i + 1]| < |s|
  {
    var ps := Pieces(s, sep);
    assert |Split(s, sep)| <= |ps| && Split(s, sep) == ps[..|Split(s, sep)|];
    JoinPieces(s, sep);
    JoinNeighbours(ps, sep, i);
  }

  lemma {:induction false} JoinNeighbours(ps: seq<String>, sep: char, i: nat)
    requires i + 1 < |ps|
    ensures |ps[i]| + |ps[i + 1]| < |Join(ps, sep)|
    decreases |ps|
  {
    if i > 0 {
      JoinNeighbours(ps[1..], sep, i - 1);
    } else if |ps| > 2 {
      assert Join(ps[1..], sep) == ps[1] + [sep] + Join(ps[2..], sep);
    }
  }

  /** String.trim: white space and control characters (up to U+0020) at both ends removed */
  function TrimStart(s: String): String
    decreases |s|
  {
    if |s| > 0 && s[0] <= ' ' then TrimStart(s[1..]) else s
  }

  function TrimEnd(s: String): String
    decreases |s|
  {
    if |s| > 0 && s[|s| - 1] <= ' ' then TrimEnd(s[..|s| - 1]) else s
  }

  function Trim(s: String): String {
    TrimEnd(TrimStart(s))
  }

  /** How often x occurs in s */
  function Count(s: String, x: char): nat
    decreases |s|
  {
    if |s| == 0 then 0 else Count(s[..|s| - 1], x) + (if s[|s| - 1] == x then 1 else 0)
  }

  lemma {:induction false} CountConcat(a: String, b: String, x: char)
    ensures Count(a + b, x) == Count(a, x) + Count(b, x)
    decreases |b|
  {
    if |b| > 0 {
      assert (a + b)[..|a + b| - 1] == a + b[..|b| - 1];
      CountConcat(a, b[..|b| - 1], x);
    } else {
      assert a + b == a;
    }
  }

  /** Counting over one more letter of a prefix */
  lemma CountPrefix(s: String, n: nat, x: char)
    requires 0 < n <= |s|
    ensures Count(s[..n], x) == Count(s[..n - 1], x) + (if s[n - 1] == x then 1 else 0)
  {
    assert s[..n][..n - 1] == s[..n - 1];
  }

  lemma {:induction false} CountAbsent(s: String, x: char)
    requires x !in s
    ensures Count(s, x) == 0
    decreases |s|
  {
    if |s| > 0 {
      assert forall y :: y in s[..|s| - 1] ==> y in s;
      CountAbsent(s[..|s| - 1], x);
    }
  }

  /** No Latin or Cyrillic capital letter occurs in s */
  predicate Lowercase(s: String) {
    forall i :: 0 <= i < |s| ==> !('A' <= s[i] <= 'Z' || '\U{0400}' <= s[i] <= '\U{042F}')
  }

  /** Character.toLowerCase on the Latin and Cyrillic capitals: A-Z and А-Я move
      up by 0x20, the capitals Ѐ-Џ by 0x50; every other character is kept */
  function LowerChar(c: char): (d: char)
    ensures !('A' <= d <= 'Z' || '\U{0400}' <= d <= '\U{042F}')
    ensures !('A' <= c <= 'Z' || '\U{0400}' <= c <= '\U{042F}') ==> d == c
  {
    if 'A' <= c <= 'Z' || '\U{0410}' <= c <= '\U{042F}' then (c as int + 0x20) as char
    else if '\U{0400}' <= c <= '\U{040F}' then (c as int + 0x50) as char
    else c
  }

  /** String.toLowerCase, on the letters above */
  function ToLower(s: String): (r: String)
    ensures |r| == |s| && Lowercase(r)
    ensures forall i :: 0 <= i < |s| ==> r[i] == LowerChar(s[i])
  {
    seq(|s|, i requires 0 <= i < |s| => LowerChar(s[i]))
  }

  /** Lowercasing makes no space. */
  lemma LowerNoSpace(s: String)
    requires ' ' !in s
    ensures ' ' !in ToLower(s)
  {
    var r := ToLower(s);
    forall k | 0 <= k < |r| ensures r[k] != ' ' {
      assert s[k] != ' ';
    }
  }

  /** Lowercasing a string without capitals changes nothing. */
  lemma LowercaseKept(s: String)
    requires Lowercase(s)
    ensures ToLower(s) == s
  {
  }
}
