/**
 * The notice-period pattern `(\d+)\s*(?:day|days|d)` of the auto-renewal
 * audit rule, as `re.findall` applies it to the lowercased contract text.
 *
 * Every branch of the alternation begins with `d`, so a match starting at p
 * exists exactly when the longest digit run at p, then the longest
 * whitespace run, is followed by a `d`: giving back a digit leaves a digit
 * where `\s*d` must start, and giving back whitespace leaves whitespace where
 * `d` must stand.  The captured group is that longest digit run.  The match
 * consumes `day` when it follows (the first branch), otherwise just `d`, and
 * the scan resumes after it.  Digits are the ASCII digits and whitespace is
 * Python's `isspace()`.
 */
module NoticePattern {
  import opened Strings

  /** End of the digit run that starts at i (i itself when s[i] is no digit). */
  function DigitsEnd(s: string, i: nat): (e: nat)
    requires i <= |s|
    ensures i <= e <= |s|
    ensures forall k :: i <= k < e ==> IsDigit(s[k])
    ensures e < |s| ==> !IsDigit(s[e])
    decreases |s| - i
  {
    if i < |s| && IsDigit(s[i]) then DigitsEnd(s, i + 1) else i
  }

  /** End of the whitespace run that starts at i. */
  function SpacesEnd(s: string, i: nat): (e: nat)
    requires i <= |s|
    ensures i <= e <= |s|
    ensures forall k :: i <= k < e ==> IsSpace(s[k])
    ensures e < |s| ==> !IsSpace(s[e])
    decreases |s| - i
  {
    if i < |s| && IsSpace(s[i]) then SpacesEnd(s, i + 1) else i
  }

  /** The pattern matches at p. */
  predicate MatchAt(s: string, p: nat) {
    && p < |s| && IsDigit(s[p])
    && var d := SpacesEnd(s, DigitsEnd(s, p));
       d < |s| && s[d] == 'd'
  }

  /** The regular expression's own reading: s[p..q] is one or more digits,
      s[q..r] zero or more whitespace characters, and s[r] is a `d`. */
  predicate Pieces(s: string, p: nat, q: nat, r: nat) {
    && p < q <= r < |s|
    && (forall k :: p <= k < q ==> IsDigit(s[k]))
    && (forall k :: q <= k < r ==> IsSpace(s[k]))
    && s[r] == 'd'
  }

  /** The greedy reading decides the pattern: it matches at p exactly when
      some split into digits, whitespace and `d` exists, and then the split
      is the greedy one. */
  lemma MatchAtIff(s: string, p: nat)
    ensures MatchAt(s, p) <==> exists q: nat, r: nat :: Pieces(s, p, q, r)
    ensures forall q: nat, r: nat :: Pieces(s, p, q, r) ==>
              q == DigitsEnd(s, p) && r == SpacesEnd(s, DigitsEnd(s, p))
  {
    forall q: nat, r: nat | Pieces(s, p, q, r)
      ensures q == DigitsEnd(s, p) && r == SpacesEnd(s, DigitsEnd(s, p))
    {
      GreedySplit(s, p, q, r);
    }
    if MatchAt(s, p) {
      var q := DigitsEnd(s, p);
      assert Pieces(s, p, q, SpacesEnd(s, q));
    }
  }

  lemma GreedySplit(s: string, p: nat, q: nat, r: nat)
    requires Pieces(s, p, q, r)
    ensures q == DigitsEnd(s, p) && r == SpacesEnd(s, DigitsEnd(s, p))
  {
    // s[q] is whitespace or the `d`, neither of them a digit
    DigitsEndAtLeast(s, p, q);
    DigitsEndAtMost(s, p, q);
    SpacesEndAtLeast(s, q, r);
    SpacesEndAtMost(s, q, r);
  }

  lemma {:induction false} DigitsEndAtLeast(s: string, i: nat, q: nat)
    requires i <= q <= |s| && forall k :: i <= k < q ==> IsDigit(s[k])
    ensures q <= DigitsEnd(s, i)
    decreases q - i
  {
    if i < q {
      DigitsEndAtLeast(s, i + 1, q);
    }
  }

  lemma {:induction false} DigitsEndAtMost(s: string, i: nat, q: nat)
    requires i <= q < |s| && !IsDigit(s[q])
    ensures DigitsEnd(s, i) <= q
    decreases q - i
  {
    if i < q && IsDigit(s[i]) {
      DigitsEndAtMost(s, i + 1, q);
    }
  }

  lemma {:induction false} SpacesEndAtLeast(s: string, i: nat, q: nat)
    requires i <= q <= |s| && forall k :: i <= k < q ==> IsSpace(s[k])
    ensures q <= SpacesEnd(s, i)
    decreases q - i
  {
    if i < q {
      SpacesEndAtLeast(s, i + 1, q);
    }
  }

  lemma {:induction false} SpacesEndAtMost(s: string, i: nat, q: nat)
    requires i <= q < |s| && !IsSpace(s[q])
    ensures SpacesEnd(s, i) <= q
    decreases q - i
  {
    if i < q && IsSpace(s[i]) {
      SpacesEndAtMost(s, i + 1, q);
    }
  }

  /** Where a match at p ends: after `day` when it follows, else after `d`. */
  function MatchEnd(s: string, p: nat): (e: nat)
    requires MatchAt(s, p)
    ensures p < e <= |s|
    ensures var d := SpacesEnd(s, DigitsEnd(s, p));
      e == d + 1 || (e == d + 3 && s[d..e] == "day")
  {
    var d := SpacesEnd(s, DigitsEnd(s, p));
    if d + 3 <= |s| && s[d..d + 3] == "day" then d + 3 else d + 1
  }

  /** `re.findall(pattern, s[p:])`, scanning on from p: the captured digit
      runs of the successive non-overlapping matches, left to right.  Each
      one is a non-empty run of ASCII digits. */
  function FindAll(s: string, p: nat): (r: seq<string>)
    requires p <= |s|
    ensures forall k :: 0 <= k < |r| ==> |r[k]| > 0 && AllDigits(r[k])
    decreases |s| - p
  {
    if p == |s| then []
    else if MatchAt(s, p) then [s[p..DigitsEnd(s, p)]] + FindAll(s, MatchEnd(s, p))
    else FindAll(s, p + 1)
  }

  /** A maximal digit run starts at p. */
  predicate RunStart(s: string, p: nat) {
    p < |s| && IsDigit(s[p]) && (p == 0 || !IsDigit(s[p - 1]))
  }

  /** The notice numbers of s from position p on, read off the text: the
      whole digit run at every run start that is followed by optional
      whitespace and a `d`, in text order. */
  function Notices(s: string, p: nat): (r: seq<string>)
    requires p <= |s|
    ensures forall k :: 0 <= k < |r| ==> |r[k]| > 0 && AllDigits(r[k])
    decreases |s| - p
  {
    if p == |s| then []
    else (if RunStart(s, p) && MatchAt(s, p) then [s[p..DigitsEnd(s, p)]] else []) + Notices(s, p + 1)
  }

  /** A notice starts at p whose number is below the bound. */
  predicate NoticeBelow(s: string, p: nat, bound: nat) {
    && RunStart(s, p) && MatchAt(s, p)
    && ParseDigits(s[p..DigitsEnd(s, p)]) < bound
  }

  /** The scan never stands inside a digit run whose start matched. */
  predicate Aligned(s: string, p: nat)
    requires p <= |s|
  {
    p == 0 || !IsDigit(s[p - 1]) || !MatchAt(s, p - 1)
  }

  /** Inside a digit run, the pattern matches at a digit exactly when it
      matches at the digit before. */
  lemma MatchAfterDigit(s: string, p: nat)
    requires 0 < p < |s| && IsDigit(s[p - 1])
    ensures DigitsEnd(s, p - 1) == DigitsEnd(s, p)
    ensures MatchAt(s, p) ==> MatchAt(s, p - 1)
  {
  }

  /** No notice starts in [a, b): the notices from a are those from b. */
  lemma {:induction false} NoNoticesBetween(s: string, a: nat, b: nat)
    requires a <= b <= |s|
    requires forall q :: a <= q < b ==> !(RunStart(s, q) && MatchAt(s, q))
    ensures Notices(s, a) == Notices(s, b)
    decreases b - a
  {
    if a < b {
      NoNoticesBetween(s, a + 1, b);
    }
  }

  /** Nothing a match consumes after its first digit starts a notice. */
  lemma InsideMatch(s: string, p: nat)
    requires MatchAt(s, p)
    ensures forall q :: p < q < MatchEnd(s, p) ==> !(RunStart(s, q) && MatchAt(s, q))
    ensures !IsDigit(s[MatchEnd(s, p) - 1])
  {
    var de := DigitsEnd(s, p);
    var d := SpacesEnd(s, de);
    var e := MatchEnd(s, p);
    forall q | p < q < e ensures !(RunStart(s, q) && MatchAt(s, q)) {
      if q < de {
        assert IsDigit(s[q - 1]);
      } else if q < d {
        assert IsSpace(s[q]);
      } else if q > d {
        assert s[d..d + 3] == "day" && s[q] == s[d..d + 3][q - d];
      }
    }
    if e == d + 3 {
      assert s[e - 1] == s[d..d + 3][2];
    }
  }

  /** `re.findall` finds exactly the notices of the text, in text order. */
  lemma {:induction false} FindAllIsNotices(s: string, p: nat)
    requires p <= |s| && Aligned(s, p)
    ensures FindAll(s, p) == Notices(s, p)
    decreases |s| - p
  {
    if p < |s| {
      if MatchAt(s, p) {
        if p > 0 && IsDigit(s[p - 1]) {
          MatchAfterDigit(s, p);
        }
        assert RunStart(s, p);
        var e := MatchEnd(s, p);
        InsideMatch(s, p);
        FindAllIsNotices(s, e);
        NoNoticesBetween(s, p + 1, e);
      } else {
        FindAllIsNotices(s, p + 1);
      }
    }
  }

  /** The numbers `re.findall` returns on the whole text. */
  lemma FindAllNotices(s: string)
    ensures FindAll(s, 0) == Notices(s, 0)
  {
    FindAllIsNotices(s, 0);
  }
}
