/** Which spellings of a task id count as one: letter case, the blanks around it and
    the text around it do not matter. */
module ClaimantIds {
  import opened Text
  import opened Words
  import opened Claimants

  lemma {:induction false} UpperKeepsSpaces(c: char)
    ensures IsSpace(UpperChar(c)) <==> IsSpace(c)
  {
  }

  lemma {:induction false} TrimStartOfUpper(s: string)
    ensures TrimStart(Upper(s)) == Upper(TrimStart(s))
  {
    if s != "" {
      UpperKeepsSpaces(s[0]);
      assert Upper(s)[0] == UpperChar(s[0]) && Upper(s)[1..] == Upper(s[1..]);
      TrimStartOfUpper(s[1..]);
    }
  }

  lemma {:induction false} TrimEndOfUpper(s: string)
    ensures TrimEnd(Upper(s)) == Upper(TrimEnd(s))
  {
    if s != "" {
      var n := |s| - 1;
      UpperKeepsSpaces(s[n]);
      assert Upper(s)[n] == UpperChar(s[n]) && Upper(s)[..n] == Upper(s[..n]);
      TrimEndOfUpper(s[..n]);
    }
  }

  lemma {:induction false} TrimOfUpper(s: string)
    ensures Trim(Upper(s)) == Upper(Trim(s))
  {
    TrimStartOfUpper(s);
    TrimEndOfUpper(TrimStart(s));
  }

  lemma {:induction false} SameCaseSameId(a: string, b: string)
    requires SameButCase(a, b)
    ensures NormalizeClaimantTaskId(a) == NormalizeClaimantTaskId(b)
  {
    UpperFoldsCase(a, b);
    TrimOfUpper(a);
    TrimOfUpper(b);
  }

  /** Ids that differ only in letter case, and in the blanks around them, are one. */
  lemma {:induction false} SpellingsAgree(a: string, b: string, before: string, after: string)
    requires SameButCase(a, b) && AllSpace(before) && AllSpace(after)
    ensures NormalizeClaimantTaskId(before + b + after) == NormalizeClaimantTaskId(a)
  {
    SpacesBehind(before + b, after);
    SpacesBefore(before, b);
    SameCaseSameId(a, b);
  }

  predicate AllDigits(s: string) {
    forall k :: 0 <= k < |s| ==> '0' <= s[k] <= '9'
  }

  predicate WordEdge(c: char) {
    !('a' <= c <= 'z') && !('A' <= c <= 'Z') && !('0' <= c <= '9') && c != '_'
  }

  /** `TASK-` and digits, in capitals. */
  predicate PlainId(id: string, digits: string) {
    digits != "" && AllDigits(digits) && id == "TASK-" + digits
  }

  lemma {:induction false} PlainIdEnds(before: string, id: string, digits: string, after: string)
    requires PlainId(id, digits) && (before == "" || WordEdge(before[|before| - 1]))
    requires after == "" || (WordEdge(after[0]) && after[0] != '-')
    ensures IdEnd(before + (id + after), |before|) == |before| + |id|
  {
    var s, i := before + (id + after), |before|;
    var e := i + |id|;
    assert s[i..i + 5] == "TASK-";
    assert forall k :: i + 5 <= k < e ==> s[k] == digits[k - i - 5];
    assert e < |s| ==> s[e] == after[0];
    DigitRun(s, i + 5, e);
    assert s[i] == 'T' && s[e - 1] == digits[|digits| - 1];
    assert i > 0 ==> s[i - 1] == before[i - 1];
  }

  lemma {:induction false} MatchBegins(s: string, i: nat)
    requires i <= |s| && OccursAt(s, TASK_PREFIX, i)
    ensures i < |s| && s[i] == 'T'
  {
    assert s[i..i + |TASK_PREFIX|][0] == 'T';
  }

  lemma {:induction false} NothingBefore(s: string, i: nat, at: nat)
    requires i <= at <= |s| && forall k :: i <= k < at ==> s[k] != 'T'
    ensures FindId(s, i) == FindId(s, at)
    decreases at - i
  {
    if i < at {
      if OccursAt(s, TASK_PREFIX, i) {
        MatchBegins(s, i);
      }
      NothingBefore(s, i + 1, at);
    }
  }

  lemma {:induction false} FoundInCapitals(s: string, at: nat, end: nat)
    requires at < end <= |s| && IdEnd(s, at) == end && forall k :: 0 <= k < at ==> s[k] != 'T'
    requires NoSpaceAtEnds(s) && Upper(s) == s
    ensures NormalizeClaimantTaskId(s) == s[at..end]
  {
    TrimmedEnds(s);
    NothingBefore(s, 0, at);
  }

  predicate NoSmallLetters(s: string) {
    forall k :: 0 <= k < |s| ==> !('a' <= s[k] <= 'z')
  }

  lemma {:induction false} PieceBetween(before: string, id: string, after: string)
    ensures (before + (id + after))[|before|..|before| + |id|] == id
  {
  }

  lemma {:induction false} CapitalsStay(s: string)
    requires NoSmallLetters(s)
    ensures Upper(s) == s
  {
  }

  lemma {:induction false} IdInCapitals(before: string, id: string, digits: string, after: string)
    requires PlainId(id, digits) && (before == "" || WordEdge(before[|before| - 1]))
    requires after == "" || (WordEdge(after[0]) && after[0] != '-')
    requires forall k :: 0 <= k < |before| ==> before[k] != 'T'
    requires NoSmallLetters(before + (id + after)) && NoSpaceAtEnds(before + (id + after))
    ensures NormalizeClaimantTaskId(before + (id + after)) == id
  {
    PlainIdEnds(before, id, digits, after);
    CapitalsStay(before + (id + after));
    PieceBetween(before, id, after);
    FoundInCapitals(before + (id + after), |before|, |before| + |id|);
  }

  /** An id of digits is found in any text that it stands in as a word, in any letter
      case, if no other id can begin before it. */
  lemma {:induction false} IdIsFound(text: string, before: string, id: string, digits: string, after: string)
    requires PlainId(id, digits) && (before == "" || WordEdge(before[|before| - 1]))
    requires after == "" || (WordEdge(after[0]) && after[0] != '-')
    requires forall k :: 0 <= k < |before| ==> before[k] != 'T'
    requires NoSmallLetters(before + (id + after)) && NoSpaceAtEnds(before + (id + after))
    requires SameButCase(before + (id + after), text)
    ensures NormalizeClaimantTaskId(text) == id
  {
    IdInCapitals(before, id, digits, after);
    SameCaseSameId(before + (id + after), text);
  }
}
