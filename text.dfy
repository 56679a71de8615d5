/**
 * The JavaScript string operations the command interpreter is built from, restricted to ASCII:
 * `toLowerCase`, `trim`, `includes`, a regular-expression alternation of literal words tried at one
 * position, `split(...)[1]`, `parseInt` on a digit string and number-to-string conversion.
 */
module Text {
  import opened Seqs

  // ---------------------------------------------------------------- case

  /** `toLowerCase` on one character: only 'A'..'Z' change. */
  function LowerChar(c: char): (r: char)
    ensures 'A' <= c <= 'Z' ==> r as int == c as int + 32
    ensures !('A' <= c <= 'Z') ==> r == c
    ensures !('A' <= r <= 'Z')
  {
    if 'A' <= c <= 'Z' then (c as int + 32) as char else c
  }

  /** `toLowerCase`: every character lower-cased (see LowerAt), nothing else changes. */
  function Lower(s: string): (r: string)
    ensures |r| == |s|
  {
    if s == [] then [] else [LowerChar(s[0])] + Lower(s[1..])
  }

  /** Lower-casing works character by character. */
  lemma {:induction false} LowerAt(s: string)
    ensures forall i :: 0 <= i < |s| ==> Lower(s)[i] == LowerChar(s[i])
  {
    if s != [] {
      LowerAt(s[1..]);
      forall i | 1 <= i < |s| ensures Lower(s)[i] == LowerChar(s[i]) {
        assert Lower(s)[i] == Lower(s[1..])[i - 1];
      }
    }
  }

  predicate HasNoUpper(s: string) {
    forall i :: 0 <= i < |s| ==> !('A' <= s[i] <= 'Z')
  }

  lemma LowerAppend(a: string, b: string)
    ensures Lower(a + b) == Lower(a) + Lower(b)
  {
    LowerAt(a);
    LowerAt(b);
    LowerAt(a + b);
    assert forall i :: 0 <= i < |a + b| ==> Lower(a + b)[i] == (Lower(a) + Lower(b))[i];
  }

  /** Lower-casing leaves no upper-case letter, so a second pass changes nothing. */
  lemma LowerIdempotent(s: string)
    ensures HasNoUpper(Lower(s))
    ensures Lower(Lower(s)) == Lower(s)
  {
    LowerAt(s);
    LowerAt(Lower(s));
  }

  /** Text without capitals is its own lower-case form. */
  lemma LowerNoUpper(s: string)
    requires HasNoUpper(s)
    ensures Lower(s) == s
  {
    LowerAt(s);
  }

  /** A word typed anywhere, in any case, is included in the lower-cased text as its own
      lower-case form. */
  lemma IncludesLowered(a: string, w: string, b: string)
    ensures Includes(Lower(a + w + b), Lower(w))
  {
    LowerAppend(a + w, b);
    LowerAppend(a, w);
    IncludesMiddle(Lower(a), Lower(w), Lower(b));
  }

  // ---------------------------------------------------------------- whitespace

  /** The ASCII characters that `trim` and `\s` treat as white space. */
  predicate IsSpace(c: char) {
    c == ' ' || c == '\t' || c == '\n' || c == '\r' || c == '\U{B}' || c == '\U{C}'
  }

  predicate AllSpace(s: string) {
    forall i :: 0 <= i < |s| ==> IsSpace(s[i])
  }

  /** The number of white-space characters at the start of `s`. */
  function LeadingSpaces(s: string): (n: nat)
    ensures n <= |s|
    ensures forall i :: 0 <= i < n ==> IsSpace(s[i])
    ensures n < |s| ==> !IsSpace(s[n])
  {
    if s != [] && IsSpace(s[0]) then 1 + LeadingSpaces(s[1..]) else 0
  }

  /** The number of white-space characters at the end of `s`. */
  function TrailingSpaces(s: string): (n: nat)
    ensures n <= |s|
    ensures forall i :: |s| - n <= i < |s| ==> IsSpace(s[i])
    ensures n < |s| ==> !IsSpace(s[|s| - n - 1])
  {
    if s != [] && IsSpace(s[|s| - 1]) then 1 + TrailingSpaces(s[..|s| - 1]) else 0
  }

  lemma LeadingSpacesExact(s: string, n: nat)
    requires n <= |s|
    requires forall i :: 0 <= i < n ==> IsSpace(s[i])
    requires n < |s| ==> !IsSpace(s[n])
    ensures LeadingSpaces(s) == n
  {
  }

  lemma TrailingSpacesExact(s: string, n: nat)
    requires n <= |s|
    requires forall i :: |s| - n <= i < |s| ==> IsSpace(s[i])
    requires n < |s| ==> !IsSpace(s[|s| - n - 1])
    ensures TrailingSpaces(s) == n
  {
  }

  /** `String.prototype.trim`: `s` with its leading and trailing white space removed. */
  function Trim(s: string): (r: string)
    ensures |r| <= |s|
    ensures AllSpace(s) <==> r == []
    ensures r != [] ==> !IsSpace(r[0]) && !IsSpace(r[|r| - 1])
    ensures OccursAt(s, r, LeadingSpaces(s))
    ensures forall i :: 0 <= i < LeadingSpaces(s) ==> IsSpace(s[i])
    ensures forall i :: LeadingSpaces(s) + |r| <= i < |s| ==> IsSpace(s[i])
  {
    var a := LeadingSpaces(s);
    var rest := s[a..];
    var b := TrailingSpaces(rest);
    assert a < |s| ==> b < |rest| by {
      if a < |s| {
        assert rest[0] == s[a];
      }
    }
    var r := rest[..|rest| - b];
    assert s[a..a + |r|] == r;
    OccursAtSlice(s, r, a);
    forall i | a + |r| <= i < |s| ensures IsSpace(s[i]) {
      assert s[i] == rest[i - a];
    }
    r
  }

  /** Trim is determined by its characterisation: whatever white space surrounds a core that
      neither starts nor ends with white space, trimming returns exactly that core. */
  lemma TrimExact(pre: string, core: string, post: string)
    requires AllSpace(pre) && AllSpace(post)
    requires core != [] ==> !IsSpace(core[0]) && !IsSpace(core[|core| - 1])
    ensures Trim(pre + core + post) == core
  {
    var s := pre + core + post;
    if core == [] {
      assert forall i :: 0 <= i < |s| ==> s[i] == (if i < |pre| then pre[i] else post[i - |pre|]);
      assert AllSpace(s);
    } else {
      LeadingSpacesExact(s, |pre|);
      var rest := s[|pre|..];
      assert rest == core + post;
      TrailingSpacesExact(rest, |post|);
      assert rest[..|rest| - |post|] == core;
    }
  }

  // ---------------------------------------------------------------- substring search

  /** `t` occurs in `s` starting at index `k`. */
  predicate OccursAt(s: string, t: string, k: nat) {
    k + |t| <= |s| && MatchesFrom(s, t, k)
  }

  /** The characters of `t` agree with those of `s` from `k` on, compared one by one. */
  predicate MatchesFrom(s: string, t: string, k: nat)
    requires k + |t| <= |s|
    decreases |t|
  {
    t == [] || (s[k] == t[0] && MatchesFrom(s, t[1..], k + 1))
  }

  /** An occurrence is a slice equal to `t`. */
  lemma {:induction false} OccursAtSlice(s: string, t: string, k: nat)
    ensures OccursAt(s, t, k) <==> k + |t| <= |s| && s[k..k + |t|] == t
    decreases |t|
  {
    if t != [] && k + |t| <= |s| {
      OccursAtSlice(s, t[1..], k + 1);
      assert s[k..k + |t|] == [s[k]] + s[k + 1..k + 1 + |t[1..]|];
      assert t == [t[0]] + t[1..];
    }
  }

  /** `indexOf(t, from)`: the first index at or after `from` where `t` occurs. */
  function IndexOf(s: string, t: string, from: nat): (r: Option<nat>)
    ensures r.Some? ==> from <= r.value && OccursAt(s, t, r.value)
    ensures r.Some? ==> forall j :: from <= j < r.value ==> !OccursAt(s, t, j)
    ensures r.None? ==> forall j :: from <= j ==> !OccursAt(s, t, j)
    decreases |s| - from
  {
    if from + |t| > |s| then None
    else if OccursAt(s, t, from) then Some(from)
    else IndexOf(s, t, from + 1)
  }

  /** `s.includes(t)`. */
  function Includes(s: string, t: string): (b: bool)
    ensures b <==> exists k :: 0 <= k <= |s| && OccursAt(s, t, k)
  {
    IndexOf(s, t, 0).Some?
  }

  lemma IncludesAt(s: string, t: string, k: nat)
    requires OccursAt(s, t, k)
    ensures Includes(s, t)
  {
  }

  /** A word with a letter that the text lacks is not included in it. */
  lemma MissingLetter(s: string, t: string, i: nat)
    requires i < |t| && t[i] !in s
    ensures !Includes(s, t)
  {
    forall k | 0 <= k <= |s| ensures !OccursAt(s, t, k) {
      OccursAtSlice(s, t, k);
      if k + |t| <= |s| {
        assert s[k..k + |t|][i] == s[k + i] && s[k + i] in s;
      }
    }
  }

  /** None of the words is included when each lacks a letter of its own in the text: the
      letter at position `at[j]` of word `j`. */
  lemma NoneIncluded(s: string, words: seq<string>, at: seq<nat>)
    requires |at| == |words|
    requires forall j :: 0 <= j < |words| ==> at[j] < |words[j]| && words[j][at[j]] !in s
    ensures !AnyIncluded(s, words)
  {
    forall j | 0 <= j < |words| ensures !Includes(s, words[j]) {
      MissingLetter(s, words[j], at[j]);
    }
  }

  /** `t` occurs inside `a + t + b`. */
  lemma IncludesMiddle(a: string, t: string, b: string)
    ensures Includes(a + t + b, t)
  {
    assert (a + t + b)[|a|..|a| + |t|] == t;
    OccursAtSlice(a + t + b, t, |a|);
    IncludesAt(a + t + b, t, |a|);
  }

  /** Some word of `words` is included in `s` (a chain of `||`-ed `includes` tests). */
  predicate AnyIncluded(s: string, words: seq<string>) {
    exists i :: 0 <= i < |words| && Includes(s, words[i])
  }

  // ---------------------------------------------------------------- alternations of literal words

  /** Which alternative of the regular expression `w0|w1|...` matches at position `p`: the
      alternatives are tried in order and the first that occurs at `p` wins. */
  function AlternativeAt(s: string, words: seq<string>, p: nat): Option<nat>
  {
    AlternativeFrom(s, words, p, 0)
  }

  /** The first alternative, from the `i`-th on, that occurs at `p`. */
  function AlternativeFrom(s: string, words: seq<string>, p: nat, i: nat): Option<nat>
    decreases |words| - i
  {
    if i >= |words| then None
    else if OccursAt(s, words[i], p) then Some(i)
    else AlternativeFrom(s, words, p, i + 1)
  }

  /** The alternative chosen is the first one, in the order written, that occurs at `p`;
      there is none exactly when no alternative occurs there. */
  lemma AlternativeAtFirst(s: string, words: seq<string>, p: nat)
    ensures var r := AlternativeAt(s, words, p);
      && (r.Some? ==> r.value < |words| && OccursAt(s, words[r.value], p))
      && (r.Some? ==> forall j :: 0 <= j < r.value ==> !OccursAt(s, words[j], p))
      && (r.None? <==> forall j :: 0 <= j < |words| ==> !OccursAt(s, words[j], p))
  {
    AlternativeFromFirst(s, words, p, 0);
  }

  lemma {:induction false} AlternativeFromFirst(s: string, words: seq<string>, p: nat, i: nat)
    ensures var r := AlternativeFrom(s, words, p, i);
      && (r.Some? ==> i <= r.value < |words| && OccursAt(s, words[r.value], p))
      && (r.Some? ==> forall j :: i <= j < r.value ==> !OccursAt(s, words[j], p))
      && (r.None? <==> forall j :: i <= j < |words| ==> !OccursAt(s, words[j], p))
    decreases |words| - i
  {
    if i < |words| && !OccursAt(s, words[i], p) {
      AlternativeFromFirst(s, words, p, i + 1);
    }
  }

  /** Every alternative is a non-empty word, so every match makes progress. */
  predicate NonEmptyWords(words: seq<string>) {
    forall i :: 0 <= i < |words| ==> words[i] != []
  }

  /** The leftmost match of `w0|w1|...` at or after `from`: its position and its length. */
  function SearchAlternatives(s: string, words: seq<string>, from: nat): (r: Option<(nat, nat)>)
    ensures r.Some? ==> from <= r.value.0 && r.value.0 + r.value.1 <= |s|
    ensures r.Some? ==> exists i :: 0 <= i < |words| && OccursAt(s, words[i], r.value.0) && |words[i]| == r.value.1
    ensures r.Some? ==> forall j, i :: from <= j < r.value.0 && 0 <= i < |words| ==> !OccursAt(s, words[i], j)
    ensures r.None? ==> forall j, i :: from <= j && 0 <= i < |words| ==> !OccursAt(s, words[i], j)
    decreases |s| - from
  {
    AlternativeAtFirst(s, words, from);
    if from > |s| then None
    else match AlternativeAt(s, words, from)
      case Some(i) => Some((from, |words[i]|))
      case None =>
        if from == |s| then
          assert forall j, i :: from <= j && 0 <= i < |words| ==> !OccursAt(s, words[i], j) by {
            forall j, i | from <= j && 0 <= i < |words| ensures !OccursAt(s, words[i], j) {
              if j > from { assert j + |words[i]| > |s|; }
            }
          }
          None
        else SearchAlternatives(s, words, from + 1)
  }

  /** No word of positive length starts at the end of the text. */
  lemma SearchAlternativesEnd(s: string, words: seq<string>)
    requires NonEmptyWords(words)
    ensures SearchAlternatives(s, words, |s|) == None
  {
    AlternativeAtFirst(s, words, |s|);
  }

  /** One step of the scan: a word at `from` is the match; with none there the scan moves on. */
  lemma SearchAlternativesStep(s: string, words: seq<string>, from: nat)
    requires from < |s|
    ensures match AlternativeAt(s, words, from)
      case Some(i) => i < |words| && SearchAlternatives(s, words, from) == Some((from, |words[i]|))
      case None => SearchAlternatives(s, words, from) == SearchAlternatives(s, words, from + 1)
  {
    AlternativeAtFirst(s, words, from);
  }

  /** `s.split(w0|w1|...)[1]`: the text between the end of the first match and the start of the
      second one, or the end of `s` when there is only one.  The caller must know that `s` holds a
      separator: otherwise the element does not exist and the source would throw. */
  function SecondSegment(s: string, words: seq<string>): (r: string)
    requires NonEmptyWords(words)
    requires SearchAlternatives(s, words, 0).Some?
    ensures var first := SearchAlternatives(s, words, 0).value;
      OccursAt(s, r, first.0 + first.1)
    ensures forall i, j: nat :: 0 <= i < |words| ==> !OccursAt(r, words[i], j)
    ensures var first := SearchAlternatives(s, words, 0).value;
      forall j, i :: first.0 + first.1 <= j < first.0 + first.1 + |r| && 0 <= i < |words| ==>
        !OccursAt(s, words[i], j)
    ensures var first := SearchAlternatives(s, words, 0).value;
      var e := first.0 + first.1 + |r|;
      e == |s| || exists i :: 0 <= i < |words| && OccursAt(s, words[i], e)
  {
    var first := SearchAlternatives(s, words, 0).value;
    var e := first.0 + first.1;
    var q := match SearchAlternatives(s, words, e)
      case Some(next) => next.0
      case None => |s|;
    SliceHasNoWord(s, words, e, q);
    var r := s[e..q];
    assert s[e..e + |r|] == r;
    OccursAtSlice(s, r, e);
    r
  }

  /** The segment is pinned down by its two ends: it starts right after the leftmost separator
      and runs up to the next place a separator starts, or to the end of `s`. */
  lemma SecondSegmentExact(s: string, words: seq<string>, k: nat, i: nat, e: nat)
    requires NonEmptyWords(words) && i < |words|
    requires OccursAt(s, words[i], k)
    requires forall j, i' :: 0 <= j < k && 0 <= i' < |words| ==> !OccursAt(s, words[i'], j)
    requires forall i' :: 0 <= i' < |words| && OccursAt(s, words[i'], k) ==> |words[i']| == |words[i]|
    requires k + |words[i]| <= e <= |s|
    requires forall j, i' :: k + |words[i]| <= j < e && 0 <= i' < |words| ==> !OccursAt(s, words[i'], j)
    requires e == |s| || exists i' :: 0 <= i' < |words| && OccursAt(s, words[i'], e)
    ensures SearchAlternatives(s, words, 0).Some?
    ensures SecondSegment(s, words) == s[k + |words[i]|..e]
  {
    var first := SearchAlternatives(s, words, 0);
    assert first.Some? && first.value.0 == k;
    var a := k + |words[i]|;
    var r := SecondSegment(s, words);
    var e' := a + |r|;
    assert e' == e;
    OccursAtSlice(s, r, a);
  }

  /** A stretch of `s` in which no word starts contains no word. */
  lemma SliceHasNoWord(s: string, words: seq<string>, e: nat, q: nat)
    requires NonEmptyWords(words) && e <= q <= |s|
    requires forall j, i :: e <= j < q && 0 <= i < |words| ==> !OccursAt(s, words[i], j)
    ensures forall i, j: nat :: 0 <= i < |words| ==> !OccursAt(s[e..q], words[i], j)
  {
    forall i, j: nat | 0 <= i < |words| && OccursAt(s[e..q], words[i], j) ensures false {
      var w := words[i];
      OccursAtSlice(s[e..q], w, j);
      assert j + |w| <= q - e;
      var inS, inSlice := s[e + j..e + j + |w|], s[e..q][j..j + |w|];
      forall m | 0 <= m < |w| ensures inS[m] == inSlice[m] {
        assert s[e..q][j + m] == s[e + j + m];
      }
      assert inS == inSlice;
      OccursAtSlice(s, w, e + j);
    }
  }

  lemma {:induction false} IncludesFindsAlternative(s: string, words: seq<string>, i: nat)
    requires i < |words| && Includes(s, words[i])
    ensures SearchAlternatives(s, words, 0).Some?
  {
    var k :| 0 <= k <= |s| && OccursAt(s, words[i], k);
  }

  /** When one of the words is included, the alternation of all of them matches somewhere. */
  lemma AnyIncludedFinds(s: string, words: seq<string>)
    requires AnyIncluded(s, words)
    ensures SearchAlternatives(s, words, 0).Some?
  {
    var i :| 0 <= i < |words| && Includes(s, words[i]);
    IncludesFindsAlternative(s, words, i);
  }

  // ---------------------------------------------------------------- numbers

  predicate IsDigit(c: char) { '0' <= c <= '9' }

  predicate AllDigits(s: string) {
    forall i :: 0 <= i < |s| ==> IsDigit(s[i])
  }

  function DigitValue(c: char): (d: nat)
    requires IsDigit(c)
    ensures d < 10
  {
    c as int - '0' as int
  }

  function DigitChar(d: nat): (c: char)
    requires d < 10
    ensures IsDigit(c) && DigitValue(c) == d
  {
    ('0' as int + d) as char
  }

  /** `parseInt` of a string of decimal digits, with unbounded precision. */
  function DecimalValue(digits: string): (n: nat)
    requires AllDigits(digits)
  {
    if digits == [] then 0
    else 10 * DecimalValue(digits[..|digits| - 1]) + DigitValue(digits[|digits| - 1])
  }

  /** The decimal rendering of `n` (what `${n}` produces for a non-negative integer). */
  function NatToString(n: nat): (s: string)
    ensures s != [] && AllDigits(s)
    ensures n >= 10 ==> s[0] != '0'
    ensures DecimalValue(s) == n
    decreases n
  {
    if n < 10 then [DigitChar(n)]
    else
      var front := NatToString(n / 10);
      var s := front + [DigitChar(n % 10)];
      assert s[..|s| - 1] == front;
      s
  }

  /** A single digit reads as its own value. */
  lemma OneDigit(c: char)
    requires IsDigit(c)
    ensures AllDigits([c]) && DecimalValue([c]) == DigitValue(c)
  {
    assert [c][..0] == [];
  }

  /** A digit string reads as 0 exactly when it is all zeros: "0" and "00" name no list entry. */
  lemma {:induction false} ZeroValue(digits: string)
    requires AllDigits(digits)
    ensures DecimalValue(digits) == 0 <==> forall i :: 0 <= i < |digits| ==> digits[i] == '0'
    decreases |digits|
  {
    if digits != [] {
      var front := digits[..|digits| - 1];
      ZeroValue(front);
      assert forall i :: 0 <= i < |front| ==> front[i] == digits[i];
    }
  }

  /** Leading zeros do not change the value: "02" reads as 2. */
  lemma {:induction false} LeadingZero(digits: string)
    requires AllDigits(digits)
    ensures AllDigits("0" + digits) && DecimalValue("0" + digits) == DecimalValue(digits)
    decreases |digits|
  {
    var z := "0" + digits;
    if digits != [] {
      var front := digits[..|digits| - 1];
      assert z[..|z| - 1] == "0" + front;
      assert z[|z| - 1] == digits[|digits| - 1];
      LeadingZero(front);
    }
  }
}
