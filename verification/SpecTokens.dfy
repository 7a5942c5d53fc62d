/** Which value a submitted priority or status becomes.  A name leads a value when
    the value begins with it, in any letter case, and what follows is administrative;
    the longest name that leads decides. */
module SpecTokens {
  import opened Base
  import opened Text
  import opened Words
  import opened SpecFixes

  // ---------------------------------------------------------------------
  // Leading names

  predicate Separates(c: char) {
    c == '(' || c == '+' || c == ';' || c == ':' || c == ',' || c == '/' || c == '.' || c == '-' ||
    c == '\U{2013}' || c == '\U{2014}'
  }

  predicate Digit(c: char) { '0' <= c <= '9' }

  /** `2026-07-02` and anything after it. */
  predicate Dated(s: string) {
    |s| >= 10 && Digit(s[0]) && Digit(s[1]) && Digit(s[2]) && Digit(s[3]) && s[4] == '-' &&
    Digit(s[5]) && Digit(s[6]) && s[7] == '-' && Digit(s[8]) && Digit(s[9])
  }

  /** After blanks, if any: nothing, a separator, or a date. */
  ghost predicate Administrative(s: string) {
    exists gap, rest :: AllSpace(gap) && s == gap + rest &&
                        (rest == "" || (!IsSpace(rest[0]) && (Separates(rest[0]) || Dated(rest))))
  }

  lemma {:induction false} SuffixExactly(s: string)
    ensures IsAdminSuffix(s) <==> Administrative(s)
  {
    var gap := TrimStartSplits(s);
    TrimStartLemma(s);
    assert s == gap + TrimStart(s);
    forall gap, rest | AllSpace(gap) && s == gap + rest && (rest == "" || !IsSpace(rest[0]))
      ensures TrimStart(s) == rest
    {
      TrimStartDrops(gap, rest);
    }
    SeparatorsExactly(TrimStart(s));
  }

  lemma {:induction false} SeparatorsExactly(r: string)
    ensures r != "" ==> (r[0] in "(+;:,/.\U{2013}\U{2014}-" <==> Separates(r[0]))
    ensures IsDate(r) <==> Dated(r)
  {
  }

  ghost predicate LedBy(raw: string, name: string) {
    var t := Trim(raw);
    |name| <= |t| && SameButCase(t[..|name|], name) && Administrative(t[|name|..])
  }

  // ---------------------------------------------------------------------
  // The longest name decides

  /** The name `n` stands for the value `c`. */
  type Names = (string, string) -> bool

  ghost predicate Decides(raw: string, names: Names, n: string, c: string) {
    names(n, c) && LedBy(raw, n) && forall m, d :: names(m, d) && LedBy(raw, m) ==> |m| <= |n|
  }

  predicate LargeLetters(s: string) {
    forall k :: 0 <= k < |s| ==> !('a' <= s[k] <= 'z')
  }

  /** The candidates are the names, each in capitals and with one meaning. */
  ghost predicate Lists(candidates: seq<Candidate>, names: Names) {
    (forall n, c :: (n, c) in candidates <==> names(n, c)) &&
    (forall n, c :: names(n, c) ==> LargeLetters(n)) &&
    (forall n, c, d :: names(n, c) && names(n, d) ==> c == d)
  }

  lemma {:induction false} InsertByLengthMembers(c: Candidate, sorted: seq<Candidate>, x: Candidate)
    ensures x in InsertByLength(c, sorted) <==> x == c || x in sorted
  {
    if sorted != [] && |sorted[0].0| >= |c.0| {
      InsertByLengthMembers(c, sorted[1..], x);
      assert x in sorted <==> x == sorted[0] || x in sorted[1..];
    }
  }

  lemma {:induction false} LongestFirstMembers(candidates: seq<Candidate>, x: Candidate)
    ensures x in LongestFirst(candidates) <==> x in candidates
  {
    if candidates != [] {
      var n := |candidates| - 1;
      LongestFirstMembers(candidates[..n], x);
      InsertByLengthMembers(candidates[n], LongestFirst(candidates[..n]), x);
      assert candidates == candidates[..n] + [candidates[n]];
    }
  }

  ghost predicate Descending(sorted: seq<Candidate>) {
    forall i, j :: 0 <= i < j < |sorted| ==> |sorted[j].0| <= |sorted[i].0|
  }

  lemma {:induction false} InsertByLengthSorts(c: Candidate, sorted: seq<Candidate>)
    requires Descending(sorted)
    ensures Descending(InsertByLength(c, sorted))
  {
    if sorted != [] && |sorted[0].0| >= |c.0| {
      var rest := InsertByLength(c, sorted[1..]);
      InsertByLengthSorts(c, sorted[1..]);
      forall j | 0 <= j < |rest| ensures |rest[j].0| <= |sorted[0].0| {
        assert rest[j] in rest;
        InsertByLengthMembers(c, sorted[1..], rest[j]);
      }
    }
  }

  lemma {:induction false} LongestFirstSorts(candidates: seq<Candidate>)
    ensures Descending(LongestFirst(candidates))
  {
    if candidates != [] {
      var n := |candidates| - 1;
      LongestFirstSorts(candidates[..n]);
      InsertByLengthSorts(candidates[n], LongestFirst(candidates[..n]));
    }
  }

  predicate Leads(t: string, c: Candidate) {
    StartsWith(Upper(t), c.0) && IsAdminSuffix(t[|c.0|..])
  }

  lemma {:induction false} LeadsExactly(raw: string, c: Candidate)
    requires LargeLetters(c.0)
    ensures Leads(Trim(raw), c) <==> LedBy(raw, c.0)
  {
    var t, n := Trim(raw), |c.0|;
    if n <= |t| {
      SuffixExactly(t[n..]);
      assert Upper(t)[..n] == Upper(t[..n]);
      assert Upper(c.0) == c.0;
      UpperFoldsCase(t[..n], c.0);
    }
  }

  /** The first name that leads is the longest one that does. */
  lemma {:induction false} FirstIsLongest(t: string, sorted: seq<Candidate>)
    requires Descending(sorted)
    ensures FirstToken(t, sorted).None? ==> forall x :: x in sorted ==> !Leads(t, x)
    ensures FirstToken(t, sorted).Some? ==>
              exists x :: x in sorted && Leads(t, x) && FirstToken(t, sorted) == Some(x.1) &&
                          forall y :: y in sorted && Leads(t, y) ==> |y.0| <= |x.0|
  {
    if sorted != [] {
      var rest := sorted[1..];
      assert forall x :: x in sorted <==> x == sorted[0] || x in rest;
      if Leads(t, sorted[0]) {
        assert sorted[0] in sorted;
      } else {
        FirstIsLongest(t, rest);
      }
    }
  }

  lemma {:induction false} SameLengthSameName(raw: string, n: string, m: string)
    requires LargeLetters(n) && LargeLetters(m) && LedBy(raw, n) && LedBy(raw, m) && |n| == |m|
    ensures n == m
  {
    LeadsExactly(raw, (n, n));
    LeadsExactly(raw, (m, m));
  }

  /** A value becomes `c` exactly when the longest name that leads it stands for `c`, and
      nothing is extracted exactly when no name leads it. */
  lemma {:induction false} TokenExactly(raw: string, candidates: seq<Candidate>, names: Names)
    requires Lists(candidates, names)
    ensures forall c :: ExtractLeadingToken(raw, candidates) == Some(c) <==> exists n :: Decides(raw, names, n, c)
    ensures ExtractLeadingToken(raw, candidates).None? <==> forall n, c :: names(n, c) ==> !LedBy(raw, n)
  {
    var sorted := LongestFirst(candidates);
    forall x ensures x in sorted <==> names(x.0, x.1) {
      LongestFirstMembers(candidates, x);
    }
    LongestFirstSorts(candidates);
    FirstIsLongest(Trim(raw), sorted);
    forall n, c | names(n, c) ensures Leads(Trim(raw), (n, c)) <==> LedBy(raw, n) {
      LeadsExactly(raw, (n, c));
    }
    var token := ExtractLeadingToken(raw, candidates);
    if token.Some? {
      var x :| x in sorted && Leads(Trim(raw), x) && token == Some(x.1) &&
               forall y :: y in sorted && Leads(Trim(raw), y) ==> |y.0| <= |x.0|;
      assert Decides(raw, names, x.0, x.1) by {
        forall m, d | names(m, d) && LedBy(raw, m) ensures |m| <= |x.0| {
          assert (m, d) in sorted && Leads(Trim(raw), (m, d));
        }
      }
      forall n, c | Decides(raw, names, n, c) ensures c == x.1 {
        SameLengthSameName(raw, n, x.0);
      }
    } else {
      forall n, c | names(n, c) ensures !LedBy(raw, n) {
        assert (n, c) in sorted;
      }
    }
  }

  // ---------------------------------------------------------------------
  // Priorities

  predicate CriticalName(n: string) {
    n == "P0-CRITICAL" || n == "P0" || n == "P0-BLOCKER" || n == "BLOCKER" || n == "CRITICAL"
  }

  predicate HighName(n: string) { n == "P1-HIGH" || n == "P1" || n == "HIGH" }

  predicate MediumName(n: string) { n == "P2-MEDIUM" || n == "P2" || n == "MEDIUM" }

  predicate LowName(n: string) { n == "P3-LOW" || n == "P3" || n == "LOW" }

  /** The names of the four levels. */
  predicate PriorityName(n: string, level: string) {
    (level == "P0-CRITICAL" && CriticalName(n)) || (level == "P1-HIGH" && HighName(n)) ||
    (level == "P2-MEDIUM" && MediumName(n)) || (level == "P3-LOW" && LowName(n))
  }

  lemma {:induction false} ListedPriorities(n: string, level: string)
    ensures (n, level) in PRIORITIES ==> PriorityName(n, level)
  {
  }

  lemma {:induction false} CriticalNames(n: string)
    ensures CriticalName(n) ==> (n, "P0-CRITICAL") in PRIORITIES && LargeLetters(n)
  {
    assert PRIORITIES[0] == ("P0-CRITICAL", "P0-CRITICAL") && PRIORITIES[4] == ("P0", "P0-CRITICAL");
    assert PRIORITIES[8] == ("P0-BLOCKER", "P0-CRITICAL") && PRIORITIES[9] == ("BLOCKER", "P0-CRITICAL");
    assert PRIORITIES[10] == ("CRITICAL", "P0-CRITICAL");
  }

  lemma {:induction false} OtherNames(n: string)
    ensures HighName(n) ==> (n, "P1-HIGH") in PRIORITIES && LargeLetters(n)
    ensures MediumName(n) ==> (n, "P2-MEDIUM") in PRIORITIES && LargeLetters(n)
    ensures LowName(n) ==> (n, "P3-LOW") in PRIORITIES && LargeLetters(n)
  {
    assert PRIORITIES[1] == ("P1-HIGH", "P1-HIGH") && PRIORITIES[5] == ("P1", "P1-HIGH");
    assert PRIORITIES[2] == ("P2-MEDIUM", "P2-MEDIUM") && PRIORITIES[6] == ("P2", "P2-MEDIUM");
    assert PRIORITIES[3] == ("P3-LOW", "P3-LOW") && PRIORITIES[7] == ("P3", "P3-LOW");
    assert PRIORITIES[11] == ("HIGH", "P1-HIGH") && PRIORITIES[12] == ("MEDIUM", "P2-MEDIUM");
    assert PRIORITIES[13] == ("LOW", "P3-LOW");
  }

  lemma {:induction false} LevelsDiffer(n: string)
    ensures CriticalName(n) ==> !HighName(n) && !MediumName(n) && !LowName(n)
    ensures HighName(n) ==> !MediumName(n) && !LowName(n)
    ensures MediumName(n) ==> !LowName(n)
  {
  }

  lemma {:induction false} PrioritiesAreListed()
    ensures Lists(PRIORITIES, PriorityName)
  {
    forall n, c ensures (n, c) in PRIORITIES <==> PriorityName(n, c) {
      ListedPriorities(n, c);
      CriticalNames(n);
      OtherNames(n);
    }
    forall n, c, d | PriorityName(n, c) ensures LargeLetters(n) && (PriorityName(n, d) ==> c == d) {
      CriticalNames(n);
      OtherNames(n);
      LevelsDiffer(n);
    }
  }

  /** The longest name that leads the value is one of this level's. */
  ghost predicate DecidesPriority(raw: string, n: string, level: string) {
    PriorityName(n, level) && LedBy(raw, n) && forall m, k :: PriorityName(m, k) && LedBy(raw, m) ==> |m| <= |n|
  }

  ghost predicate MeansPriority(raw: string, level: string) {
    exists n :: DecidesPriority(raw, n, level)
  }

  /** A submitted priority becomes a level exactly when the longest name that leads it is
      one of that level's, and none exactly when no name leads it. */
  lemma {:induction false} PriorityExactly(raw: string)
    ensures forall level :: ExtractLeadingToken(raw, PRIORITIES) == Some(level) <==> MeansPriority(raw, level)
    ensures ExtractLeadingToken(raw, PRIORITIES).None? <==> forall n, level :: PriorityName(n, level) ==> !LedBy(raw, n)
  {
    PrioritiesAreListed();
    TokenExactly(raw, PRIORITIES, PriorityName);
    assert forall n, level :: Decides(raw, PriorityName, n, level) <==> DecidesPriority(raw, n, level);
  }

  // ---------------------------------------------------------------------
  // Statuses

  predicate CanonicalStatus(n: string) {
    n == "BACKLOG" || n == "READY" || n == "IN_PROGRESS" || n == "BLOCKED" || n == "ON_HOLD" || n == "DECOMPOSED" ||
    n == "VERIFYING" || n == "COMPLETE" || n == "VERIFIED" || n == "REJECTED"
  }

  /** What the parser accepts by itself. */
  predicate ParserStatus(n: string, status: string) {
    (n == status && CanonicalStatus(n)) ||
    (status == "ON_HOLD" && (n == "ON-HOLD" || n == "ON HOLD")) ||
    (status == "IN_PROGRESS" && (n == "INPROGRESS" || n == "IN PROGRESS" || n == "IN-PROGRESS"))
  }

  predicate ExtendedStatus(n: string, status: string) {
    (status == "BACKLOG" && (n == "TODO" || n == "OPEN" || n == "NEW" || n == "READY FOR SCOPING")) ||
    (status == "COMPLETE" && n == "DONE") || (status == "IN_PROGRESS" && n == "WIP")
  }

  predicate StatusName(n: string, status: string) {
    ParserStatus(n, status) || ExtendedStatus(n, status)
  }

  lemma {:induction false} ListedStatuses(n: string, status: string)
    ensures (n, status) in STATUSES ==> n == status && CanonicalStatus(n)
    ensures (n, status) in STATUS_ALIASES ==> n != status && ParserStatus(n, status)
    ensures (n, status) in EXTENDED_STATUS_ALIASES ==> ExtendedStatus(n, status)
  {
  }

  lemma {:induction false} FirstStatuses(n: string)
    ensures n in ["BACKLOG", "READY", "IN_PROGRESS", "BLOCKED", "ON_HOLD"] ==> (n, n) in STATUSES && LargeLetters(n)
  {
    assert STATUSES[0] == ("BACKLOG", "BACKLOG") && STATUSES[1] == ("READY", "READY");
    assert STATUSES[2] == ("IN_PROGRESS", "IN_PROGRESS") && STATUSES[3] == ("BLOCKED", "BLOCKED");
    assert STATUSES[4] == ("ON_HOLD", "ON_HOLD");
  }

  lemma {:induction false} LastStatuses(n: string)
    ensures n in ["DECOMPOSED", "VERIFYING", "COMPLETE", "VERIFIED", "REJECTED"] ==>
              (n, n) in STATUSES && LargeLetters(n)
  {
    assert STATUSES[5] == ("DECOMPOSED", "DECOMPOSED") && STATUSES[6] == ("VERIFYING", "VERIFYING");
    assert STATUSES[7] == ("COMPLETE", "COMPLETE") && STATUSES[8] == ("VERIFIED", "VERIFIED");
    assert STATUSES[9] == ("REJECTED", "REJECTED");
  }

  lemma {:induction false} CanonicalStatuses(n: string)
    ensures CanonicalStatus(n) ==> (n, n) in STATUSES && LargeLetters(n)
  {
    FirstStatuses(n);
    LastStatuses(n);
    assert CanonicalStatus(n) ==> n in ["BACKLOG", "READY", "IN_PROGRESS", "BLOCKED", "ON_HOLD"] ||
                                  n in ["DECOMPOSED", "VERIFYING", "COMPLETE", "VERIFIED", "REJECTED"];
  }

  lemma {:induction false} AliasesAreListed(n: string, status: string)
    ensures ParserStatus(n, status) && n != status ==> (n, status) in STATUS_ALIASES && LargeLetters(n)
  {
    assert STATUS_ALIASES[0] == ("ON-HOLD", "ON_HOLD") && STATUS_ALIASES[1] == ("ON HOLD", "ON_HOLD");
    assert STATUS_ALIASES[2] == ("INPROGRESS", "IN_PROGRESS") && STATUS_ALIASES[3] == ("IN PROGRESS", "IN_PROGRESS");
    assert STATUS_ALIASES[4] == ("IN-PROGRESS", "IN_PROGRESS");
  }

  lemma {:induction false} ExtendedAreListed(n: string, status: string)
    ensures ExtendedStatus(n, status) ==> (n, status) in EXTENDED_STATUS_ALIASES && LargeLetters(n)
  {
    assert EXTENDED_STATUS_ALIASES[0] == ("TODO", "BACKLOG") && EXTENDED_STATUS_ALIASES[1] == ("OPEN", "BACKLOG");
    assert EXTENDED_STATUS_ALIASES[2] == ("NEW", "BACKLOG") && EXTENDED_STATUS_ALIASES[3] == ("DONE", "COMPLETE");
    assert EXTENDED_STATUS_ALIASES[4] == ("WIP", "IN_PROGRESS");
    assert EXTENDED_STATUS_ALIASES[5] == ("READY FOR SCOPING", "BACKLOG");
  }

  lemma {:induction false} StatusesDiffer(n: string, c: string, d: string)
    requires StatusName(n, c) && StatusName(n, d)
    ensures c == d
  {
  }

  lemma {:induction false} LookupFinds(candidates: seq<Candidate>, name: string)
    ensures Lookup(candidates, name).Some? ==> (name, Lookup(candidates, name).value) in candidates
    ensures Lookup(candidates, name).None? ==> forall c :: (name, c) !in candidates
  {
    if candidates != [] {
      assert candidates == [candidates[0]] + candidates[1..];
      LookupFinds(candidates[1..], name);
    }
  }

  /** The names the fix looks for at the start of a value. */
  lemma {:induction false} StatusesAreListed()
    ensures Lists(STATUSES + STATUS_ALIASES + EXTENDED_STATUS_ALIASES, StatusName)
  {
    var all := STATUSES + STATUS_ALIASES + EXTENDED_STATUS_ALIASES;
    forall n, c ensures (n, c) in all <==> StatusName(n, c) {
      ListedStatuses(n, c);
      CanonicalStatuses(n);
      AliasesAreListed(n, c);
      ExtendedAreListed(n, c);
      InEither(STATUSES + STATUS_ALIASES, EXTENDED_STATUS_ALIASES, (n, c));
      InEither(STATUSES, STATUS_ALIASES, (n, c));
    }
    forall n, c, d | StatusName(n, c) ensures LargeLetters(n) && (StatusName(n, d) ==> c == d) {
      CanonicalStatuses(n);
      AliasesAreListed(n, c);
      ExtendedAreListed(n, c);
      if StatusName(n, d) {
        StatusesDiffer(n, c, d);
      }
    }
  }

  lemma {:induction false} InEither(a: seq<Candidate>, b: seq<Candidate>, x: Candidate)
    ensures x in a + b <==> x in a || x in b
  {
  }

  /** The longest name that leads the value is one of this status. */
  ghost predicate DecidesStatus(raw: string, n: string, status: string) {
    StatusName(n, status) && LedBy(raw, n) && forall m, d :: StatusName(m, d) && LedBy(raw, m) ==> |m| <= |n|
  }

  ghost predicate MeansStatus(raw: string, status: string) {
    exists n :: DecidesStatus(raw, n, status)
  }

  predicate StatusChars(s: string) {
    forall k :: 0 <= k < |s| ==>
      'a' <= s[k] <= 'z' || 'A' <= s[k] <= 'Z' || '0' <= s[k] <= '9' || s[k] == '_' || s[k] == '-' || IsSpace(s[k])
  }

  /** The value is `head` with one annotation in parentheses behind it. */
  ghost predicate Annotated(t: string, head: string) {
    head != "" && StatusChars(head) && exists inside :: ')' !in inside && t == head + ("(" + inside + ")")
  }

  lemma {:induction false} CharIndexIs(s: string, c: char, k: nat)
    requires k <= |s| && c !in s[..k] && (k < |s| ==> s[k] == c)
    ensures CharIndex(s, c) == k
  {
    if k > 0 {
      assert s[..k] == [s[0]] + s[1..][..k - 1];
      assert s[0] in s[..k];
      CharIndexIs(s[1..], c, k - 1);
    }
  }

  lemma {:induction false} CharIndexFinds(s: string, c: char)
    ensures c !in s[..CharIndex(s, c)] && (CharIndex(s, c) < |s| ==> s[CharIndex(s, c)] == c)
  {
    if s != "" && s[0] != c {
      var k := CharIndex(s[1..], c);
      CharIndexFinds(s[1..], c);
      assert s[..k + 1] == [s[0]] + s[1..][..k];
    }
  }

  lemma {:induction false} StatusCharsExactly(t: string, p: nat)
    requires p <= |t|
    ensures (forall k :: 0 <= k < p ==> IsStatusChar(t[k])) <==> StatusChars(t[..p])
  {
    assert forall k :: 0 <= k < p ==> t[..p][k] == t[k];
  }

  /** An annotation ends the value at its only closing parenthesis. */
  lemma {:induction false} TailIsRead(t: string, head: string, inside: string)
    requires head != "" && StatusChars(head) && ')' !in inside && t == head + ("(" + inside + ")")
    ensures CharIndex(t, '(') == |head| && CharIndex(t[|head| + 1..], ')') == |t| - |head| - 2
  {
    assert t[..|head|] == head && t[|head|] == '(';
    assert '(' !in head;
    CharIndexIs(t, '(', |head|);
    assert t[|head| + 1..] == inside + ")";
    CharIndexIs(inside + ")", ')', |inside|);
  }

  lemma {:induction false} AnnotationIsRead(raw: string, head: string)
    requires Annotated(Trim(raw), head)
    ensures StripAnnotation(raw) == Upper(Trim(head))
  {
    var t := Trim(raw);
    var inside :| ')' !in inside && t == head + ("(" + inside + ")");
    TailIsRead(t, head, inside);
    assert t[..|head|] == head;
    StatusCharsExactly(t, |head|);
  }

  lemma {:induction false} NoAnnotationIsRead(raw: string)
    requires forall head :: !Annotated(Trim(raw), head)
    ensures StripAnnotation(raw) == Upper(Trim(raw))
  {
    var t := Trim(raw);
    var p := CharIndex(t, '(');
    TrimmedEnds(raw);
    TrimmedEnds(t);
    CharIndexFinds(t, '(');
    if 0 < p < |t| && StatusChars(t[..p]) {
      var q := CharIndex(t[p + 1..], ')');
      CharIndexFinds(t[p + 1..], ')');
      if q == |t| - p - 2 {
        var inside := t[p + 1..][..q];
        assert t == t[..p] + ("(" + inside + ")");
        assert Annotated(t, t[..p]);
      }
    }
    StatusCharsExactly(t, p);
  }

  /** What is left of the value without its annotation is `n`, in any letter case. */
  ghost predicate ReadsAs(raw: string, n: string) {
    if exists head :: Annotated(Trim(raw), head)
    then exists head :: Annotated(Trim(raw), head) && SameButCase(Trim(head), n)
    else SameButCase(Trim(raw), n)
  }

  lemma {:induction false} ReadsExactly(raw: string, n: string)
    requires LargeLetters(n)
    ensures StripAnnotation(raw) == n <==> ReadsAs(raw, n)
  {
    assert Upper(n) == n;
    if exists head :: Annotated(Trim(raw), head) {
      forall head | Annotated(Trim(raw), head) ensures StripAnnotation(raw) == n <==> SameButCase(Trim(head), n) {
        AnnotationIsRead(raw, head);
        UpperFoldsCase(Trim(head), n);
      }
    } else {
      NoAnnotationIsRead(raw);
      UpperFoldsCase(Trim(raw), n);
    }
  }

  lemma {:induction false} AliasIsStatus(n: string, status: string)
    ensures ParserStatus(n, status) && n != status ==> CanonicalStatus(status) && !CanonicalStatus(n)
  {
  }

  lemma {:induction false} LookupAlias(base: string)
    ensures
      match Lookup(STATUS_ALIASES, base)
      case Some(s) => ParserStatus(base, s) && CanonicalStatus(s)
      case None => forall d :: ParserStatus(base, d) ==> d == base && CanonicalStatus(base)
  {
    LookupFinds(STATUS_ALIASES, base);
    forall d ensures (base, d) in STATUS_ALIASES <==> ParserStatus(base, d) && base != d {
      ListedStatuses(base, d);
      AliasesAreListed(base, d);
      AliasIsStatus(base, d);
    }
    if Lookup(STATUS_ALIASES, base).Some? {
      AliasIsStatus(base, Lookup(STATUS_ALIASES, base).value);
    }
  }

  lemma {:induction false} LookupCanonical(n: string, c: string)
    ensures Lookup(STATUSES, n) == Some(c) <==> n == c && CanonicalStatus(n)
  {
    LookupFinds(STATUSES, n);
    CanonicalStatuses(n);
    if Lookup(STATUSES, n).Some? {
      ListedStatuses(n, Lookup(STATUSES, n).value);
    }
  }

  lemma {:induction false} LookupStatus(base: string, c: string)
    ensures
      var normalized := match Lookup(STATUS_ALIASES, base) case Some(s) => s case None => base;
      Lookup(STATUSES, normalized) == Some(c) <==> ParserStatus(base, c)
  {
    LookupAlias(base);
    match Lookup(STATUS_ALIASES, base)
    case Some(s) =>
      LookupCanonical(s, c);
      if ParserStatus(base, c) {
        StatusesDiffer(base, s, c);
      }
    case None =>
      LookupCanonical(base, c);
      CanonicalIsParsed(base);
  }

  lemma {:induction false} CanonicalIsParsed(n: string)
    ensures CanonicalStatus(n) ==> ParserStatus(n, n)
  {
  }

  lemma {:induction false} ParserNamesAreLarge(n: string, c: string)
    requires ParserStatus(n, c)
    ensures LargeLetters(n) && n != ""
  {
    CanonicalStatuses(n);
    AliasesAreListed(n, c);
  }

  lemma {:induction false} EmptyIsNoStatus(c: string)
    ensures NormalizeStatus("").None? && !exists n :: ParserStatus(n, c) && ReadsAs("", n)
  {
    forall n | ParserStatus(n, c) ensures !ReadsAs("", n) {
      ParserNamesAreLarge(n, c);
      assert Trim("") == "";
    }
  }

  /** What the parser takes a status for: the value, with or without an annotation, is
      one of the names it knows. */
  lemma {:induction false} NormalizeStatusExactly(raw: string, c: string)
    ensures NormalizeStatus(raw) == Some(c) <==> exists n :: ParserStatus(n, c) && ReadsAs(raw, n)
  {
    if raw == "" {
      EmptyIsNoStatus(c);
    } else {
      var base := StripAnnotation(raw);
      LookupStatus(base, c);
      forall n | ParserStatus(n, c) ensures base == n <==> ReadsAs(raw, n) {
        ParserNamesAreLarge(n, c);
        ReadsExactly(raw, n);
      }
    }
  }

  /** A value that is a name and nothing else: that name is the longest to lead it. */
  lemma {:induction false} WholeNameDecides(raw: string, n: string, c: string)
    requires StatusName(n, c) && LargeLetters(n) && Upper(Trim(raw)) == n
    ensures DecidesStatus(raw, n, c)
  {
    var t := Trim(raw);
    UpperFoldsCase(t, n);
    assert Upper(n) == n && t[..|n|] == t && t[|n|..] == "";
    assert Administrative("") by { assert "" == "" + ""; assert AllSpace(""); }
  }

  /** A status that the parser does not take becomes the one whose longest name leads
      the value, and nothing when no name does. */
  lemma {:induction false} StatusExactly(raw: string, c: string)
    ensures RecognizedStatus(raw) == Some(c) <==> NormalizeStatus(raw).None? && MeansStatus(raw, c)
  {
    var all, whole := STATUSES + STATUS_ALIASES + EXTENDED_STATUS_ALIASES, Upper(Trim(raw));
    StatusesAreListed();
    TokenExactly(raw, all, StatusName);
    assert forall n, d :: Decides(raw, StatusName, n, d) <==> DecidesStatus(raw, n, d);
    LookupFinds(EXTENDED_STATUS_ALIASES, whole);
    var alias := Lookup(EXTENDED_STATUS_ALIASES, whole);
    if alias.Some? {
      ListedStatuses(whole, alias.value);
      ExtendedAreListed(whole, alias.value);
      WholeNameDecides(raw, whole, alias.value);
      assert Decides(raw, StatusName, whole, alias.value);
      assert ExtractLeadingToken(raw, all) == alias;
    }
  }
}
