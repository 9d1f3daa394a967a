/**
 * The few operations of Python's `str` that the kiosk relies on:
 * `isspace`, `strip`, `split()`, `' '.join`, `lower`, `title`,
 * `replace(c, '')`, the `in` operator and `find`.
 * Case mapping covers the letters of ASCII and Latin-1; every other
 * character is treated as uncased and left as it is.
 */
module PyStr {

  /** The `k`-th inclusive range of whitespace code points, for `k` below 10. */
  function SpaceRange(k: nat): (char, char) {
    if k == 0 then ('\t', '\r')
    else if k == 1 then ('\U{1C}', ' ')
    else if k == 2 then ('\U{85}', '\U{85}')
    else if k == 3 then ('\U{A0}', '\U{A0}')
    else if k == 4 then ('\U{1680}', '\U{1680}')
    else if k == 5 then ('\U{2000}', '\U{200A}')
    else if k == 6 then ('\U{2028}', '\U{2029}')
    else if k == 7 then ('\U{202F}', '\U{202F}')
    else if k == 8 then ('\U{205F}', '\U{205F}')
    else ('\U{3000}', '\U{3000}')
  }

  /** `c` lies in one of the whitespace ranges `k` to 9. */
  predicate InSpaceRange(c: char, k: nat)
    decreases 10 - k
  {
    k < 10 && ((SpaceRange(k).0 <= c <= SpaceRange(k).1) || InSpaceRange(c, k + 1))
  }

  /** The characters Python's `str.isspace` accepts (and `split()`/`strip()` drop). */
  predicate IsSpace(c: char) {
    InSpaceRange(c, 0)
  }

  /** Upper-case letters: A to Z and Latin-1's À to Þ (without ×). */
  predicate IsUpper(c: char) { 'A' <= c <= 'Z' || ('\U{C0}' <= c <= '\U{DE}' && c != '\U{D7}') }

  /** Lower-case letters: a to z and Latin-1's ß to ÿ (without ÷). */
  predicate IsLower(c: char) { 'a' <= c <= 'z' || ('\U{DF}' <= c <= '\U{FF}' && c != '\U{F7}') }

  /** A cased character in the sense of `str.title`. */
  predicate IsCased(c: char) { IsUpper(c) || IsLower(c) }

  /** The lower-case partner of an upper-case letter is 32 code points further on. */
  function LowerChar(c: char): char {
    if IsUpper(c) then (c as int + 32) as char else c
  }

  /** The upper-case partner of a lower-case letter; ß and ÿ, whose partners lie outside Latin-1, stay. */
  function UpperChar(c: char): char {
    if IsLower(c) && c != '\U{DF}' && c != '\U{FF}' then (c as int - 32) as char else c
  }

  /** A non-empty run of lower-case letters. */
  predicate LowerWord(w: string) {
    w != [] && forall i :: 0 <= i < |w| ==> IsLower(w[i])
  }

  /** Every word of the list is a lower-case word. */
  predicate LowerWords(ws: seq<string>) {
    forall i :: 0 <= i < |ws| ==> LowerWord(ws[i])
  }

  /** Letters and spaces only, with a letter at either end. */
  predicate LetterText(j: string) {
    && (forall i :: 0 <= i < |j| ==> IsCased(j[i]) || j[i] == ' ')
    && (j != [] ==> IsCased(j[0]) && IsCased(j[|j| - 1]))
  }

  /** The word with its first letter upper-cased. */
  function Capitalized(w: string): string {
    if w == [] then [] else [UpperChar(w[0])] + w[1..]
  }

  /** Every word capitalized, in order. */
  function CapitalizeAll(ws: seq<string>): (r: seq<string>)
    ensures |r| == |ws|
    ensures forall i :: 0 <= i < |ws| ==> r[i] == Capitalized(ws[i])
  {
    if ws == [] then [] else [Capitalized(ws[0])] + CapitalizeAll(ws[1..])
  }

  /** `str.lower()` */
  function Lower(s: string): (r: string)
    ensures |r| == |s|
    ensures forall i :: 0 <= i < |s| ==> r[i] == LowerChar(s[i])
  {
    if s == [] then [] else [LowerChar(s[0])] + Lower(s[1..])
  }

  /** `str.lstrip()`: drop the leading run of whitespace. */
  function StripLeft(s: string): (r: string)
    ensures |r| <= |s| && r == s[|s| - |r|..]
    ensures forall i :: 0 <= i < |s| - |r| ==> IsSpace(s[i])
    ensures r == [] || !IsSpace(r[0])
  {
    if s != [] && IsSpace(s[0]) then
      var r := StripLeft(s[1..]);
      assert s[1..][|s| - 1 - |r|..] == s[|s| - |r|..];
      r
    else s
  }

  /** `str.rstrip()`: drop the trailing run of whitespace. */
  function StripRight(s: string): (r: string)
    ensures |r| <= |s| && r == s[..|r|]
    ensures forall i :: |r| <= i < |s| ==> IsSpace(s[i])
    ensures r == [] || !IsSpace(r[|r| - 1])
  {
    if s != [] && IsSpace(s[|s| - 1]) then StripRight(s[..|s| - 1]) else s
  }

  /** `r` is a slice of `s` and everything of `s` before and after that slice is whitespace. */
  ghost predicate Trimmed(s: string, r: string) {
    exists a, b :: && 0 <= a <= b <= |s| && r == s[a..b]
                   && (forall i :: 0 <= i < a ==> IsSpace(s[i]))
                   && (forall i :: b <= i < |s| ==> IsSpace(s[i]))
  }

  /** `str.strip()`: the slice of `s` left once the whitespace at both ends is cut away. */
  function Strip(s: string): (r: string)
    ensures r == [] || (!IsSpace(r[0]) && !IsSpace(r[|r| - 1]))
    ensures Trimmed(s, r)
    ensures forall c :: c in r ==> c in s
  {
    StripBothEnds(s);
    StripRight(StripLeft(s))
  }

  /** A text with no whitespace at either end is its own strip. */
  lemma StripUnchanged(s: string)
    requires s == [] || (!IsSpace(s[0]) && !IsSpace(s[|s| - 1]))
    ensures Strip(s) == s
  {
    assert StripLeft(s) == s;
  }

  /** A slice with only whitespace before and after it is a trimmed form of the text. */
  lemma TrimmedAt(s: string, a: nat, b: nat)
    requires a <= b <= |s|
    requires forall i :: 0 <= i < a ==> IsSpace(s[i])
    requires forall i :: b <= i < |s| ==> IsSpace(s[i])
    ensures Trimmed(s, s[a..b])
  {
  }

  /** What the right strip keeps of the left-stripped text is a slice of the text. */
  lemma StripSlice(s: string)
    ensures var a := |s| - |StripLeft(s)|;
      StripRight(StripLeft(s)) == s[a..a + |StripRight(StripLeft(s))|]
  {
  }

  /** Everything after what the two strips keep is whitespace. */
  lemma StripTrailing(s: string)
    ensures var b := |s| - |StripLeft(s)| + |StripRight(StripLeft(s))|;
      forall i :: b <= i < |s| ==> IsSpace(s[i])
  {
    var t := StripLeft(s);
    var a := |s| - |t|;
    forall i | a + |StripRight(t)| <= i < |s| ensures IsSpace(s[i]) {
      assert s[i] == t[i - a];
    }
  }

  /** Cutting the leading, then the trailing whitespace leaves a slice with only whitespace around it. */
  lemma StripBothEnds(s: string)
    ensures Trimmed(s, StripRight(StripLeft(s)))
    ensures forall c :: c in StripRight(StripLeft(s)) ==> c in s
  {
    var r := StripRight(StripLeft(s));
    var a := |s| - |StripLeft(s)|;
    StripSlice(s);
    StripTrailing(s);
    TrimmedAt(s, a, a + |r|);
  }

  /** A text made only of whitespace strips to the empty string. */
  lemma StripAllSpace(s: string)
    requires forall i :: 0 <= i < |s| ==> IsSpace(s[i])
    ensures Strip(s) == []
  {
  }

  /** A token of `split()`: non-empty and free of whitespace. */
  predicate IsWord(w: string) {
    w != [] && forall i :: 0 <= i < |w| ==> !IsSpace(w[i])
  }

  /** Length of the leading run of non-whitespace characters. */
  function WordLength(t: string): (n: nat)
    ensures n <= |t|
    ensures forall i :: 0 <= i < n ==> !IsSpace(t[i])
    ensures n < |t| ==> IsSpace(t[n])
  {
    if t == [] || IsSpace(t[0]) then 0 else 1 + WordLength(t[1..])
  }

  /** `str.split()` with no separator: the maximal runs of non-whitespace. */
  function Split(s: string): seq<string>
    decreases |s|
  {
    var t := StripLeft(s);
    if t == [] then []
    else
      var n := WordLength(t);
      [t[..n]] + Split(t[n..])
  }

  /** `' '.join(ws)` */
  function Join(ws: seq<string>): string {
    if |ws| == 0 then ""
    else if |ws| == 1 then ws[0]
    else ws[0] + " " + Join(ws[1..])
  }

  /** A token followed by nothing or by whitespace is the leading run of non-whitespace. */
  lemma {:induction false} WordLengthOfWord(w: string, rest: string)
    requires IsWord(w)
    requires rest == [] || IsSpace(rest[0])
    ensures WordLength(w + rest) == |w|
    decreases |w|
  {
    var s := w + rest;
    assert s[0] == w[0];
    assert s[1..] == w[1..] + rest;
    if |w| > 1 {
      assert IsWord(w[1..]) by {
        forall i | 0 <= i < |w| - 1 ensures !IsSpace(w[1..][i]) {
          assert w[1..][i] == w[i + 1];
        }
      }
      WordLengthOfWord(w[1..], rest);
    } else {
      assert w[1..] + rest == rest;
    }
  }

  /** Splitting depends only on what is left after the leading whitespace. */
  lemma SplitAfterStripLeft(s: string, t: string)
    requires StripLeft(s) == StripLeft(t)
    ensures Split(s) == Split(t)
  {
  }

  /** A single token splits to itself. */
  lemma SplitWord(w: string)
    requires IsWord(w)
    ensures Split(w) == [w]
  {
    assert StripLeft(w) == w;
    WordLengthOfWord(w, []);
    assert w + [] == w;
    assert w[..|w|] == w && w[|w|..] == [];
    assert StripLeft([]) == [];
  }

  /** Splitting a token, a space and more text yields the token, then the split of the rest. */
  lemma SplitCons(w: string, rest: string)
    requires IsWord(w)
    ensures Split(w + " " + rest) == [w] + Split(rest)
  {
    var s := w + " " + rest;
    assert s[0] == w[0];
    assert StripLeft(s) == s;
    assert s == w + (" " + rest);
    WordLengthOfWord(w, " " + rest);
    assert s[..|w|] == w;
    var tail := s[|w|..];
    assert tail == " " + rest;
    assert IsSpace(tail[0]);
    assert tail[1..] == rest;
    assert StripLeft(tail) == StripLeft(rest);
    SplitAfterStripLeft(tail, rest);
  }

  /** A non-empty sequence is its head followed by its tail. */
  lemma HeadTail<T>(s: seq<T>)
    requires s != []
    ensures [s[0]] + s[1..] == s
  {
  }

  /** Splitting a space-joined list of tokens gives the tokens back. */
  lemma {:induction false} SplitJoin(ws: seq<string>)
    requires forall i {:trigger IsWord(ws[i])} :: 0 <= i < |ws| ==> IsWord(ws[i])
    ensures Split(Join(ws)) == ws
  {
    if |ws| == 0 {
      assert StripLeft([]) == [];
    } else if |ws| == 1 {
      SplitWord(ws[0]);
    } else {
      var w, more := ws[0], ws[1..];
      assert forall i {:trigger IsWord(more[i])} :: 0 <= i < |more| ==> IsWord(more[i]) by {
        forall i | 0 <= i < |more| ensures IsWord(more[i]) {
          assert more[i] == ws[i + 1];
        }
      }
      SplitJoin(more);
      SplitCons(w, Join(more));
      HeadTail(ws);
    }
  }

  /** One step of `str.title()`: lower after a cased character, upper otherwise. */
  function TitleChar(c: char, prevCased: bool): (r: char)
    ensures !IsCased(c) ==> r == c
  {
    if prevCased then LowerChar(c) else UpperChar(c)
  }

  /** `str.title()`, scanning left to right with "the previous character was cased". */
  function TitleFrom(s: string, prevCased: bool): (r: string)
    ensures |r| == |s|
    ensures |s| > 0 ==> r[0] == TitleChar(s[0], prevCased)
    ensures forall i :: 0 < i < |s| ==> r[i] == TitleChar(s[i], IsCased(s[i - 1]))
  {
    if s == [] then []
    else [TitleChar(s[0], prevCased)] + TitleFrom(s[1..], IsCased(s[0]))
  }

  /** `str.title()`: the first cased letter of every run of cased letters upper, the rest lower. */
  function Title(s: string): (r: string)
    ensures |r| == |s|
    ensures forall i :: 0 <= i < |s| && !IsCased(s[i]) ==> r[i] == s[i]
    ensures forall i :: 0 <= i < |s| && (i == 0 || !IsCased(s[i - 1])) ==> r[i] == UpperChar(s[i])
    ensures forall i :: 0 < i < |s| && IsCased(s[i - 1]) ==> r[i] == LowerChar(s[i])
  {
    var r := TitleFrom(s, false);
    assert forall i :: 0 <= i < |s| && !IsCased(s[i]) ==> r[i] == s[i] by {
      forall i | 0 <= i < |s| && !IsCased(s[i]) ensures r[i] == s[i] {
        assert r[i] == TitleChar(s[i], i > 0 && IsCased(s[i - 1]));
      }
    }
    r
  }

  /** `s.replace(c, '')` for a single character `c`. */
  function RemoveChar(s: string, c: char): (r: string)
    ensures forall x :: x in r <==> x in s && x != c
    ensures |r| <= |s|
  {
    if s == [] then []
    else if s[0] == c then RemoveChar(s[1..], c)
    else [s[0]] + RemoveChar(s[1..], c)
  }

  /** Deleting a character from a concatenation deletes it from each part, keeping their order. */
  lemma {:induction false} RemoveCharAppend(s: string, t: string, c: char)
    ensures RemoveChar(s + t, c) == RemoveChar(s, c) + RemoveChar(t, c)
  {
    if s == [] {
      assert s + t == t;
    } else {
      assert (s + t)[0] == s[0];
      assert (s + t)[1..] == s[1..] + t;
      RemoveCharAppend(s[1..], t, c);
    }
  }

  /** On a single character, deletion keeps it unless it is the deleted one. */
  lemma RemoveCharOne(x: char, c: char)
    ensures RemoveChar([x], c) == if x == c then [] else [x]
  {
  }

  /** Deleting a character that does not occur changes nothing. */
  lemma {:induction false} RemoveAbsent(s: string, c: char)
    requires c !in s
    ensures RemoveChar(s, c) == s
  {
    if s != [] {
      RemoveAbsent(s[1..], c);
    }
  }

  /** `title()` of a lower-case word upper-cases its first letter only. */
  lemma TitleLowerWord(w: string)
    requires LowerWord(w)
    ensures Title(w) == Capitalized(w)
  {
    var r := Title(w);
    forall i | 0 < i < |w| ensures r[i] == w[i] {
      assert IsCased(w[i - 1]);
    }
  }

  /** Title-casing a concatenation title-cases the second part as if it followed the last character of the first. */
  lemma {:induction false} TitleFromAppend(a: string, b: string, prevCased: bool)
    ensures TitleFrom(a + b, prevCased)
         == TitleFrom(a, prevCased) + TitleFrom(b, if a == [] then prevCased else IsCased(a[|a| - 1]))
  {
    if a == [] {
      assert a + b == b;
    } else {
      assert (a + b)[0] == a[0];
      assert (a + b)[1..] == a[1..] + b;
      TitleFromAppend(a[1..], b, IsCased(a[0]));
    }
  }

  /** Title-casing a space-joined list of lower-case words capitalizes each word. */
  lemma {:induction false} TitleJoinLower(ws: seq<string>)
    requires LowerWords(ws)
    ensures Title(Join(ws)) == Join(CapitalizeAll(ws))
  {
    if |ws| == 1 {
      TitleLowerWord(ws[0]);
    } else if |ws| > 1 {
      var w, rest := ws[0], Join(ws[1..]);
      TitleJoinLower(ws[1..]);
      TitleLowerWord(w);
      assert w + " " + rest == w + (" " + rest);
      TitleFromAppend(w, " " + rest, false);
      assert IsCased(w[|w| - 1]);
      assert (" " + rest)[1..] == rest;
      assert TitleFrom(" " + rest, true) == " " + TitleFrom(rest, false);
    }
  }

  /** Letters of ASCII and Latin-1 are not whitespace, nor is any printable ASCII character but the space. */
  lemma {:induction false} PrintableNotSpace(c: char, k: nat)
    requires '!' <= c <= '~' || IsCased(c)
    ensures !InSpaceRange(c, k)
    decreases 10 - k
  {
    if k < 10 {
      PrintableNotSpace(c, k + 1);
    }
  }

  /** A lower-case word is a token of `split()`. */
  lemma LowerWordIsWord(w: string)
    requires LowerWord(w)
    ensures IsWord(w)
  {
    forall i | 0 <= i < |w| ensures !IsSpace(w[i]) {
      PrintableNotSpace(w[i], 0);
    }
  }

  /** A capitalized lower-case word is made of letters only. */
  lemma CapitalizedLetters(w: string)
    requires LowerWord(w)
    ensures Capitalized(w) != []
    ensures forall i :: 0 <= i < |Capitalized(w)| ==> IsCased(Capitalized(w)[i])
  {
    var c := Capitalized(w);
    forall i | 0 <= i < |c| ensures IsCased(c[i]) {
      if i > 0 {
        assert c[i] == w[i];
      }
    }
  }

  /** Every character of the space-joined capitalized words is a letter or the space, and both ends are letters. */
  lemma {:induction false} JoinCapitalizedLetters(ws: seq<string>)
    requires LowerWords(ws)
    ensures LetterText(Join(CapitalizeAll(ws)))
    ensures ws != [] ==> Join(CapitalizeAll(ws)) != []
  {
    if ws != [] {
      var c := Capitalized(ws[0]);
      CapitalizedLetters(ws[0]);
      if |ws| == 1 {
        assert Join(CapitalizeAll(ws)) == c;
      } else {
        assert LowerWords(ws[1..]) by {
          forall i | 0 <= i < |ws| - 1 ensures LowerWord(ws[1..][i]) {
            assert ws[1..][i] == ws[i + 1];
          }
        }
        JoinCapitalizedLetters(ws[1..]);
        var rest := Join(CapitalizeAll(ws[1..]));
        assert CapitalizeAll(ws)[1..] == CapitalizeAll(ws[1..]);
        var j := c + " " + rest;
        assert Join(CapitalizeAll(ws)) == j;
        forall i | 0 <= i < |j| ensures IsCased(j[i]) || j[i] == ' ' {
          if i < |c| {
            assert j[i] == c[i];
          } else if i > |c| {
            assert j[i] == rest[i - |c| - 1];
          }
        }
        assert j[0] == c[0] && j[|j| - 1] == rest[|rest| - 1];
      }
    }
  }

  /** A text of letters and spaces that starts and ends with a letter loses nothing to deleting '.' and ',' and stripping. */
  lemma LettersSurviveCleanup(j: string)
    requires LetterText(j)
    ensures Strip(RemoveChar(RemoveChar(j, '.'), ',')) == j
  {
    assert '.' !in j && ',' !in j;
    RemoveAbsent(j, '.');
    RemoveAbsent(j, ',');
    if j != [] {
      PrintableNotSpace(j[0], 0);
      PrintableNotSpace(j[|j| - 1], 0);
    }
    StripUnchanged(j);
  }

  /**
   * Title-casing a space-joined list of lower-case words, deleting '.' and
   * ',' and stripping capitalizes each word and changes nothing else.
   */
  lemma CapitalizeLowerWords(ws: seq<string>)
    requires LowerWords(ws)
    ensures Strip(RemoveChar(RemoveChar(Title(Join(ws)), '.'), ',')) == Join(CapitalizeAll(ws))
  {
    TitleJoinLower(ws);
    JoinCapitalizedLetters(ws);
    LettersSurviveCleanup(Join(CapitalizeAll(ws)));
  }

  /**
   * Title-casing a lower-case word, deleting '.' and ',' and
   * stripping upper-cases its first letter and changes nothing else.
   */
  lemma CapitalizeLowerWord(w: string)
    requires LowerWord(w)
    ensures Strip(RemoveChar(RemoveChar(Title(w), '.'), ',')) == Capitalized(w)
  {
    TitleLowerWord(w);
    var c := Capitalized(w);
    CapitalizedLetters(w);
    RemoveAbsent(c, '.');
    RemoveAbsent(c, ',');
    PrintableNotSpace(c[0], 0);
    PrintableNotSpace(c[|c| - 1], 0);
    StripUnchanged(c);
  }

  /** One whitespace character in front of an already stripped text is stripped away. */
  lemma StripLeadingSpace(c: char, t: string)
    requires IsSpace(c) && t != [] && !IsSpace(t[0]) && !IsSpace(t[|t| - 1])
    ensures Strip([c] + t) == t
  {
    var s := [c] + t;
    assert s[1..] == t;
    assert StripLeft(s) == t;
  }

  /** `kw` occurs in `text` starting at position `i`. */
  predicate MatchAt(text: string, kw: string, i: int) {
    0 <= i && i + |kw| <= |text| && text[i..i + |kw|] == kw
  }

  /** `p` is the first position where `kw` occurs in `text`. */
  predicate FirstMatch(text: string, kw: string, p: int) {
    MatchAt(text, kw, p) && forall q :: 0 <= q < p ==> !MatchAt(text, kw, q)
  }

  /** `text.find(kw, start)` scanning from `start`; -1 when there is no occurrence. */
  function FindFrom(text: string, kw: string, start: nat): (r: int)
    ensures r == -1 || (start <= r && MatchAt(text, kw, r))
    ensures r == -1 ==> forall j :: start <= j ==> !MatchAt(text, kw, j)
    ensures r != -1 ==> forall j :: start <= j < r ==> !MatchAt(text, kw, j)
    decreases |text| - start
  {
    if start + |kw| > |text| then -1
    else if text[start..start + |kw|] == kw then start
    else FindFrom(text, kw, start + 1)
  }

  /** `text.find(kw)`: the first occurrence, or -1. */
  function Find(text: string, kw: string): (r: int)
    ensures r == -1 || MatchAt(text, kw, r)
    ensures r == -1 <==> forall j :: !MatchAt(text, kw, j)
    ensures forall j :: 0 <= j < r ==> !MatchAt(text, kw, j)
  {
    FindFrom(text, kw, 0)
  }

  /** `kw in text` */
  predicate Contains(text: string, kw: string)
    ensures Contains(text, kw) <==> exists i :: MatchAt(text, kw, i)
  {
    Find(text, kw) != -1
  }

  /** Occurrence is transitive: a substring of a substring of `text` is a substring of `text`. */
  lemma ContainsTransitive(text: string, outer: string, inner: string)
    requires Contains(text, outer) && Contains(outer, inner)
    ensures Contains(text, inner)
  {
    var i :| MatchAt(text, outer, i);
    var j :| MatchAt(outer, inner, j);
    forall k | 0 <= k < |inner|
      ensures text[i + j + k] == inner[k]
    {
      assert outer[j + k] == inner[k];
      assert text[i + j + k] == outer[j + k];
    }
    assert MatchAt(text, inner, i + j);
  }
}
