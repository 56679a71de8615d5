/**
 * The two regular expressions the command interpreter applies to the lower-cased command:
 * the ordinal pattern `(?:number|no\.?|#)\s*(\d+)` used by `match`, and the stop-word
 * alternation `find|search|show|emails|email|from|about|for|me` used by a global `replace`.
 * Both follow JavaScript's regular-expression semantics: the leftmost position wins, and at one
 * position the alternatives are tried in the order written.
 */
module Extract {
  import opened Seqs
  import opened Text

  // ---------------------------------------------------------------- ordinal pattern

  /** `\s*`, greedy: the first position at or after `p` that is not white space. */
  function SkipSpaces(s: string, p: nat): (q: nat)
    requires p <= |s|
    ensures p <= q <= |s|
    ensures forall i :: p <= i < q ==> IsSpace(s[i])
    ensures q < |s| ==> !IsSpace(s[q])
    decreases |s| - p
  {
    if p < |s| && IsSpace(s[p]) then SkipSpaces(s, p + 1) else p
  }

  /** `\d*`, greedy: the first position at or after `p` that is not a digit. */
  function SkipDigits(s: string, p: nat): (q: nat)
    requires p <= |s|
    ensures p <= q <= |s|
    ensures forall i :: p <= i < q ==> IsDigit(s[i])
    ensures q < |s| ==> !IsDigit(s[q])
    decreases |s| - p
  {
    if p < |s| && IsDigit(s[p]) then SkipDigits(s, p + 1) else p
  }

  /** `\s*(\d+)` matched at `p`: the captured digits, or None. */
  function SpacesThenDigits(s: string, p: nat): (r: Option<string>)
    requires p <= |s|
    ensures r.Some? ==> r.value != [] && AllDigits(r.value)
  {
    var q := SkipSpaces(s, p);
    var e := SkipDigits(s, q);
    if q < e then Some(s[q..e]) else None
  }

  /** `(?:number|no\.?|#)\s*(\d+)` matched at exactly position `p`: the alternatives in order,
      and for `no\.?` first with the dot, then (backtracking) without it. */
  function OrdinalAt(s: string, p: nat): (r: Option<string>)
    ensures r.Some? ==> r.value != [] && AllDigits(r.value)
    ensures |s| <= p ==> r.None?
  {
    if p > |s| then None
    else
      var viaNumber := if OccursAt(s, "number", p) then SpacesThenDigits(s, p + 6) else None;
      if viaNumber.Some? then viaNumber
      else
        var viaNo :=
          if OccursAt(s, "no", p) then
            var withDot := if OccursAt(s, ".", p + 2) then SpacesThenDigits(s, p + 3) else None;
            if withDot.Some? then withDot else SpacesThenDigits(s, p + 2)
          else None;
        if viaNo.Some? then viaNo
        else if OccursAt(s, "#", p) then SpacesThenDigits(s, p + 1)
        else None
  }

  /** The leftmost match of the ordinal pattern at or after `from`: its position and its digits. */
  function FindOrdinal(s: string, from: nat): (r: Option<(nat, string)>)
    ensures r.Some? ==> from <= r.value.0 < |s| && OrdinalAt(s, r.value.0) == Some(r.value.1)
    ensures r.Some? ==> forall p :: from <= p < r.value.0 ==> OrdinalAt(s, p).None?
    ensures r.None? ==> forall p :: from <= p ==> OrdinalAt(s, p).None?
    decreases |s| - from
  {
    if from >= |s| then None
    else match OrdinalAt(s, from)
      case Some(d) => Some((from, d))
      case None => FindOrdinal(s, from + 1)
  }

  /** `s.match(/(?:number|no\.?|#)\s*(\d+)/)?.[1]`: the digit string exactly as typed. */
  function OrdinalDigits(s: string): (r: Option<string>)
    ensures r.Some? ==> r.value != [] && AllDigits(r.value)
    ensures r.Some? <==> exists p :: 0 <= p < |s| && OrdinalAt(s, p).Some?
  {
    match FindOrdinal(s, 0)
      case Some((_, d)) => Some(d)
      case None => None
  }

  /** A match of the ordinal pattern starts with the "n" of "number" or "no", or with "#". */
  lemma OrdinalStart(s: string, p: nat)
    ensures OrdinalAt(s, p).Some? ==> p < |s| && (s[p] == 'n' || s[p] == '#')
  {
    if OrdinalAt(s, p).Some? {
      if OccursAt(s, "number", p) {
        OccursAtSlice(s, "number", p);
        assert s[p] == s[p..p + 6][0];
      } else if OccursAt(s, "no", p) {
        OccursAtSlice(s, "no", p);
        assert s[p] == s[p..p + 2][0];
      } else {
        OccursAtSlice(s, "#", p);
        assert s[p] == s[p..p + 1][0];
      }
    }
  }

  /** Text without an "n" or a "#" holds no start of an ordinal, whatever follows it. */
  lemma NoOrdinalBefore(pre: string, rest: string)
    requires 'n' !in pre && '#' !in pre
    ensures forall q :: 0 <= q < |pre| ==> OrdinalAt(pre + rest, q).None?
  {
    forall q | 0 <= q < |pre| ensures OrdinalAt(pre + rest, q).None? {
      OrdinalStart(pre + rest, q);
      assert (pre + rest)[q] == pre[q];
    }
  }

  /** The four spellings of an ordinal ("number 2", "no. 2", "no 2", "#2"), with any white
      space before the digits and anything but a further digit after them, capture the same
      digits where the keyword starts, whatever text precedes it. */
  lemma OrdinalSpellings(pre: string, keyword: string, gap: string, digits: string, rest: string)
    requires keyword in ["number", "no.", "no", "#"]
    requires AllSpace(gap)
    requires digits != [] && AllDigits(digits)
    requires rest == [] || !IsDigit(rest[0])
    ensures OrdinalAt(pre + keyword + gap + digits + rest, |pre|) == Some(digits)
  {
    var tail := gap + digits + rest;
    assert pre + keyword + gap + digits + rest == pre + keyword + tail;
    CapturesDigits(pre, keyword, gap, digits, rest);
    assert keyword == "no" ==> tail[0] != '.' by {
      if gap != [] { assert tail[0] == gap[0]; } else { assert tail[0] == digits[0]; }
    }
    OrdinalKeyword(pre, keyword, tail);
  }

  /** At any of the keywords the pattern reduces to `\s*(\d+)` right after it, provided a
      bare "no" is not followed by a dot. */
  lemma OrdinalKeyword(pre: string, keyword: string, tail: string)
    requires keyword in ["number", "no.", "no", "#"]
    requires keyword == "no" ==> tail == [] || tail[0] != '.'
    ensures OrdinalAt(pre + keyword + tail, |pre|) == SpacesThenDigits(pre + keyword + tail, |pre| + |keyword|)
  {
    if keyword == "number" {
      OrdinalAfterNumber(pre, tail);
    } else if keyword == "no." {
      OrdinalAfterNoDot(pre, tail);
    } else if keyword == "no" {
      OrdinalAfterNo(pre, tail);
    } else {
      OrdinalAfterHash(pre, tail);
    }
  }

  /** At a "number" the pattern reduces to `\s*(\d+)` after it. */
  lemma OrdinalAfterNumber(pre: string, tail: string)
    ensures OrdinalAt(pre + "number" + tail, |pre|) == SpacesThenDigits(pre + "number" + tail, |pre| + 6)
  {
    var s := pre + "number" + tail;
    var p := |pre|;
    assert s[p..p + 6] == "number";
    assert OccursAt(s, "number", p);
  }

  /** At a "no." the dotted alternative is taken; if it fails, so does the undotted one. */
  lemma OrdinalAfterNoDot(pre: string, tail: string)
    ensures OrdinalAt(pre + "no." + tail, |pre|) == SpacesThenDigits(pre + "no." + tail, |pre| + 3)
  {
    var s := pre + "no." + tail;
    var p := |pre|;
    assert s[p] == 'n' && s[p + 1] == 'o' && s[p + 2] == '.';
    assert !OccursAt(s, "number", p);
    assert OccursAt(s, "no", p) && OccursAt(s, ".", p + 2);
    assert SkipDigits(s, SkipSpaces(s, p + 2)) == p + 2;
  }

  /** At a "no" not followed by a dot the pattern reduces to `\s*(\d+)` after it. */
  lemma OrdinalAfterNo(pre: string, tail: string)
    requires tail == [] || tail[0] != '.'
    ensures OrdinalAt(pre + "no" + tail, |pre|) == SpacesThenDigits(pre + "no" + tail, |pre| + 2)
  {
    var s := pre + "no" + tail;
    var p := |pre|;
    assert s[p] == 'n' && s[p + 1] == 'o';
    assert p + 2 < |s| ==> s[p + 2] == tail[0];
    assert !OccursAt(s, "number", p);
    assert OccursAt(s, "no", p) && !OccursAt(s, ".", p + 2);
  }

  /** At a "#" the pattern reduces to `\s*(\d+)` after it. */
  lemma OrdinalAfterHash(pre: string, tail: string)
    ensures OrdinalAt(pre + "#" + tail, |pre|) == SpacesThenDigits(pre + "#" + tail, |pre| + 1)
  {
    var s := pre + "#" + tail;
    var p := |pre|;
    assert s[p] == '#';
    assert !OccursAt(s, "number", p) && !OccursAt(s, "no", p) && OccursAt(s, "#", p);
  }

  /** After the keyword, `\s*(\d+)` skips the gap and captures exactly the digits. */
  lemma CapturesDigits(pre: string, keyword: string, gap: string, digits: string, rest: string)
    requires AllSpace(gap)
    requires digits != [] && AllDigits(digits)
    requires rest == [] || !IsDigit(rest[0])
    ensures SpacesThenDigits(pre + keyword + (gap + digits + rest), |pre| + |keyword|) == Some(digits)
  {
    var s := pre + keyword + (gap + digits + rest);
    var k := |pre| + |keyword|;
    var q := k + |gap|;
    var e := q + |digits|;
    assert forall i :: k <= i < q ==> s[i] == gap[i - k];
    assert forall i :: q <= i < e ==> s[i] == digits[i - q];
    assert e < |s| ==> s[e] == rest[0];
    SkipSpacesExact(s, k, q);
    SkipDigitsExact(s, q, e);
    assert s[q..e] == digits;
  }

  lemma SkipSpacesExact(s: string, p: nat, q: nat)
    requires p <= q <= |s|
    requires forall i :: p <= i < q ==> IsSpace(s[i])
    requires q < |s| ==> !IsSpace(s[q])
    ensures SkipSpaces(s, p) == q
  {
  }

  lemma SkipDigitsExact(s: string, p: nat, q: nat)
    requires p <= q <= |s|
    requires forall i :: p <= i < q ==> IsDigit(s[i])
    requires q < |s| ==> !IsDigit(s[q])
    ensures SkipDigits(s, p) == q
  {
  }

  // ---------------------------------------------------------------- stop words

  /** The alternation of the search branch, in the order written: "emails" before "email". */
  const StopWords: seq<string> := ["find", "search", "show", "emails", "email", "from", "about", "for", "me"]

  /** `s.slice(p).replace(new RegExp(words.join("|"), "g"), "")`: one left-to-right pass that drops
      every leftmost match and resumes scanning right after it. */
  function RemoveWords(s: string, words: seq<string>, p: nat): (r: string)
    requires NonEmptyWords(words) && p <= |s|
    ensures |r| <= |s| - p
    decreases |s| - p
  {
    if p == |s| then []
    else
      AlternativeAtFirst(s, words, p);
      match AlternativeAt(s, words, p)
      case Some(i) => RemoveWords(s, words, p + |words[i]|)
      case None => [s[p]] + RemoveWords(s, words, p + 1)
  }

  /** The pass copies everything before the leftmost match, drops the matched word and carries
      on after it. */
  lemma {:induction false} RemoveWordsLeftmost(s: string, words: seq<string>, p: nat, k: nat, n: nat)
    requires NonEmptyWords(words) && p <= |s|
    requires SearchAlternatives(s, words, p) == Some((k, n))
    ensures p <= k && k + n <= |s|
    ensures RemoveWords(s, words, p) == s[p..k] + RemoveWords(s, words, k + n)
    decreases |s| - p
  {
    SearchAlternativesEnd(s, words);
    assert p < |s|;
    SearchAlternativesStep(s, words, p);
    match AlternativeAt(s, words, p)
    case Some(i) =>
      RemoveCut(s, words, p, i);
      assert s[p..p] == [];
    case None =>
      RemoveWordsLeftmost(s, words, p + 1, k, n);
      RemoveKeep(s, words, p);
      assert s[p..k] == [s[p]] + s[p + 1..k];
  }

  /** Removal only deletes characters: what is left keeps its order. */
  lemma {:induction false} RemoveWordsSubsequence(s: string, words: seq<string>, p: nat)
    requires NonEmptyWords(words) && p <= |s|
    ensures IsSubsequence(RemoveWords(s, words, p), s[p..])
    decreases |s| - p
  {
    if p < |s| {
      AlternativeAtFirst(s, words, p);
      match AlternativeAt(s, words, p)
      case Some(i) =>
        RemoveWordsSubsequence(s, words, p + |words[i]|);
        SkipPrefix(RemoveWords(s, words, p + |words[i]|), s, p, p + |words[i]|);
      case None =>
        RemoveWordsSubsequence(s, words, p + 1);
        assert s[p..] == [s[p]] + s[p + 1..];
    }
  }

  /** A subsequence of a suffix of `s[p..]` is a subsequence of `s[p..]`. */
  lemma {:induction false} SkipPrefix(r: string, s: string, p: nat, q: nat)
    requires p <= q <= |s| && IsSubsequence(r, s[q..])
    ensures IsSubsequence(r, s[p..])
    decreases q - p
  {
    if p < q {
      SkipPrefix(r, s, p + 1, q);
      assert s[p..] == [s[p]] + s[p + 1..];
      SubsequenceWeaken(r, s[p + 1..], s[p]);
    }
  }

  /** The search keyword before trimming: the lower-cased command with the stop words cut out. */
  function StripStopWords(s: string): (r: string)
    ensures |r| <= |s|
  {
    RemoveWords(s, StopWords, 0)
  }

  lemma StripStopWordsSubsequence(s: string)
    ensures IsSubsequence(StripStopWords(s), s)
  {
    RemoveWordsSubsequence(s, StopWords, 0);
    assert s[0..] == s;
  }

  /** Text in which no word occurs anywhere passes through unchanged. */
  lemma {:induction false} RemoveWordsIdentity(s: string, words: seq<string>, p: nat)
    requires NonEmptyWords(words) && p <= |s|
    requires forall j, i :: p <= j && 0 <= i < |words| ==> !OccursAt(s, words[i], j)
    ensures RemoveWords(s, words, p) == s[p..]
    decreases |s| - p
  {
    if p < |s| {
      AlternativeAtFirst(s, words, p);
      RemoveWordsIdentity(s, words, p + 1);
      assert s[p..] == [s[p]] + s[p + 1..];
    }
  }

  /** One step of the pass where a word starts at `p`: the word is skipped. */
  lemma RemoveCut(s: string, words: seq<string>, p: nat, i: nat)
    requires NonEmptyWords(words) && p < |s|
    requires AlternativeAt(s, words, p) == Some(i)
    ensures i < |words| && p + |words[i]| <= |s|
    ensures RemoveWords(s, words, p) == RemoveWords(s, words, p + |words[i]|)
  {
    AlternativeAtFirst(s, words, p);
  }

  /** One step of the pass where no word starts at `p`: the character is kept. */
  lemma RemoveKeep(s: string, words: seq<string>, p: nat)
    requires NonEmptyWords(words) && p < |s|
    requires AlternativeAt(s, words, p) == None
    ensures RemoveWords(s, words, p) == [s[p]] + RemoveWords(s, words, p + 1)
  {
  }

  /** No stop word starts with a character other than "f", "s", "e", "a" or "m". */
  lemma NoStopWordAt(s: string, p: nat)
    requires p < |s| && s[p] !in "fsema"
    ensures AlternativeAt(s, StopWords, p) == None
  {
    AlternativeAtFirst(s, StopWords, p);
    forall j | 0 <= j < |StopWords| ensures !OccursAt(s, StopWords[j], p) {
      OccursAtSlice(s, StopWords[j], p);
      assert StopWords[j][0] in "fsema";
      if p + |StopWords[j]| <= |s| {
        assert s[p..p + |StopWords[j]|][0] == s[p];
      }
    }
  }

  /** Removal works on substrings, not on whole words: "me" is cut out of "some". */
  lemma StopWordInsideWord()
    ensures StripStopWords("some") == "so"
  {
    var s := "some";
    assert AlternativeAt(s, StopWords, 0) == None;
    assert AlternativeAt(s, StopWords, 1) == None;
    assert AlternativeAt(s, StopWords, 2) == Some(8);
    RemoveCut(s, StopWords, 2, 8);
    RemoveKeep(s, StopWords, 1);
    RemoveKeep(s, StopWords, 0);
  }

  /** The pass is not repeated: cutting "from" out of "ffromrom" leaves a new "from". */
  lemma StopWordSinglePass()
    ensures StripStopWords("ffromrom") == "from"
  {
    StopWordSinglePassHead();
    StopWordSinglePassTail();
  }

  lemma StopWordSinglePassHead()
    ensures RemoveWords("ffromrom", StopWords, 0) == ['f'] + RemoveWords("ffromrom", StopWords, 5)
  {
    var s := "ffromrom";
    assert AlternativeAt(s, StopWords, 0) == None;
    assert AlternativeAt(s, StopWords, 1) == Some(5);
    RemoveCut(s, StopWords, 1, 5);
    RemoveKeep(s, StopWords, 0);
  }

  lemma StopWordSinglePassTail()
    ensures RemoveWords("ffromrom", StopWords, 5) == "rom"
  {
    var s := "ffromrom";
    assert AlternativeAt(s, StopWords, 5) == None;
    assert AlternativeAt(s, StopWords, 6) == None;
    assert AlternativeAt(s, StopWords, 7) == None;
    RemoveKeep(s, StopWords, 7);
    RemoveKeep(s, StopWords, 6);
    RemoveKeep(s, StopWords, 5);
  }

  /** Alternatives are tried in order: "emails" wins over "email", even across a word boundary. */
  lemma StopWordOrder()
    ensures StripStopWords("emailshow") == "how"
  {
    var s := "emailshow";
    assert s[0..6] == StopWords[3];
    OccursAtSlice(s, StopWords[3], 0);
    assert AlternativeAt(s, StopWords, 0) == Some(3);
    NoStopWordAt(s, 6);
    NoStopWordAt(s, 7);
    NoStopWordAt(s, 8);
    RemoveKeep(s, StopWords, 8);
    RemoveKeep(s, StopWords, 7);
    RemoveKeep(s, StopWords, 6);
    RemoveCut(s, StopWords, 0, 3);
  }
}
