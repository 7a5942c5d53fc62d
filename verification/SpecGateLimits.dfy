/** Where the gate on unfinished specs is lost: a spec whose only tentative value
    follows a token, which the priority fix extracts, and a value that continues on
    the line after its tag, from which the provenance line cuts it off. */
module SpecGateLimits {
  import opened Base
  import opened Text
  import opened Lines
  import opened Alignment
  import opened RepairGuard
  import opened SpecFixes
  import opened SpecNormalizer
  import opened SpecGate
  import opened SpecGateRuns
  import opened SpecTokens
  import SpecReturns

  // ---------------------------------------------------------------------
  // A rewritten line with its note, and one more line further down

  ghost predicate IsMatched(o: seq<string>, r: seq<string>, i: nat, j: nat, k: nat)
    requires i <= |o| && j <= |r|
  {
    Some(k) in Greedy(o, r, i, j)
  }

  predicate IsLost(o: seq<string>, r: seq<string>, i: nat, j: nat, x: nat)
    requires i <= |o| && j <= |r|
  {
    i <= x < |o| && Greedy(o, r, i, j)[x - i].None?
  }

  lemma {:induction false} NextMatch(o: seq<string>, r: seq<string>, i: nat, j: nat, k: nat, x: nat)
    requires i < |o| && j < |r| && o[i] == r[j]
    ensures IsMatched(o, r, i, j, k) <==> k == j || IsMatched(o, r, i + 1, j + 1, k)
    ensures IsLost(o, r, i, j, x) <==> IsLost(o, r, i + 1, j + 1, x)
  {
    var rest := Greedy(o, r, i + 1, j + 1);
    assert Greedy(o, r, i, j) == [Some(j)] + rest;
    assert i < x < |o| ==> ([Some(j)] + rest)[x - i] == rest[x - i - 1];
  }

  /** Equal stretches are matched line by line. */
  lemma {:induction false} Straight(o: seq<string>, r: seq<string>, i: nat, j: nat, n: nat, k: nat, x: nat)
    requires i + n <= |o| && j + n <= |r| && o[i..i + n] == r[j..j + n]
    ensures IsMatched(o, r, i, j, k) <==> j <= k < j + n || IsMatched(o, r, i + n, j + n, k)
    ensures IsLost(o, r, i, j, x) <==> IsLost(o, r, i + n, j + n, x)
    decreases n
  {
    if n > 0 {
      assert o[i] == o[i..i + n][0] == r[j..j + n][0] == r[j];
      assert o[i + 1..i + n] == o[i..i + n][1..] == r[j..j + n][1..] == r[j + 1..j + n];
      NextMatch(o, r, i, j, k, x);
      Straight(o, r, i + 1, j + 1, n - 1, k, x);
    }
  }

  lemma {:induction false} LineIsLost(o: seq<string>, r: seq<string>, i: nat, j: nat, k: nat, x: nat)
    requires i < |o| && j <= |r| && forall t :: j <= t < |r| ==> r[t] != o[i]
    ensures IsMatched(o, r, i, j, k) <==> IsMatched(o, r, i + 1, j, k)
    ensures IsLost(o, r, i, j, x) <==> x == i || IsLost(o, r, i + 1, j, x)
  {
    var rest := Greedy(o, r, i + 1, j);
    FindNothing(r, o[i], j);
    assert Greedy(o, r, i, j) == [None] + rest;
    assert i < x < |o| ==> ([None] + rest)[x - i] == rest[x - i - 1];
  }

  lemma {:induction false} FindNothing(r: seq<string>, x: string, j: nat)
    requires j <= |r| && forall k :: j <= k < |r| ==> r[k] != x
    ensures Find(r, x, j) == |r|
    decreases |r| - j
  {
    if j < |r| {
      FindNothing(r, x, j + 1);
    }
  }

  /** Lines that are not looked for are passed over. */
  lemma {:induction false} BeginsLater(o: seq<string>, r: seq<string>, i: nat, j: nat, k: nat)
    requires i < |o| && j <= k < |r| && r[k] == o[i] && forall t :: j <= t < k ==> r[t] != o[i]
    ensures Greedy(o, r, i, j) == Greedy(o, r, i, k)
  {
    FindPasses(r, o[i], j, k);
    assert Find(r, o[i], k) == k;
  }

  lemma {:induction false} FindPasses(r: seq<string>, x: string, j: nat, k: nat)
    requires j <= k < |r| && r[k] == x && forall t :: j <= t < k ==> r[t] != x
    ensures Find(r, x, j) == k
    decreases k - j
  {
    if j < k {
      FindPasses(r, x, j + 1, k);
    }
  }

  /** A text, and what becomes of it when one line is replaced by two and a third one
      is added further down. */
  function Worked(a: seq<string>, x: string, b: seq<string>, c: seq<string>): seq<string> {
    a + [x] + b + c
  }

  function Reworked(a: seq<string>, y: string, n: string, b: seq<string>, z: string, c: seq<string>): seq<string> {
    a + [y, n] + b + [z] + c
  }

  /** The stretches of the two texts. */
  lemma {:induction false} Stretches(a: seq<string>, x: string, b: seq<string>, c: seq<string>, y: string, n: string,
                                     z: string)
    ensures
      var o, r := Worked(a, x, b, c), Reworked(a, y, n, b, z, c);
      var p, q := |a|, |b|;
      && |o| == p + 1 + q + |c| && |r| == p + 3 + q + |c|
      && o[..p] == a == r[..p] && o[p] == x && r[p] == y && r[p + 1] == n
      && o[p + 1..p + 1 + q] == b == r[p + 2..p + 2 + q] && r[p + 2 + q] == z
      && o[p + 1 + q..] == c == r[p + 3 + q..]
  {
  }

  /** Neither the new lines nor what follows is the lost line, and the new lines are
      not taken for what follows. */
  predicate ToldApart(x: string, b: seq<string>, c: seq<string>, y: string, n: string, z: string) {
    b != [] && c != [] && x != y && x != n && x != z && x !in b && x !in c && b[0] != y && b[0] != n && c[0] != z
  }

  /** A stretch that begins after lines that are not taken for it. */
  lemma {:induction false} LaterStretch(o: seq<string>, r: seq<string>, i: nat, j: nat, start: nat, n: nat, k: nat,
                                        x: nat)
    requires 0 < n && i + n <= |o| && j <= start && start + n <= |r| && o[i..i + n] == r[start..start + n]
    requires forall t :: j <= t < start ==> r[t] != o[i]
    ensures IsMatched(o, r, i, j, k) <==> start <= k < start + n || IsMatched(o, r, i + n, start + n, k)
    ensures IsLost(o, r, i, j, x) <==> IsLost(o, r, i + n, start + n, x)
  {
    FirstOf(o, r, i, start, n);
    BeginsLater(o, r, i, j, start);
    Straight(o, r, i, start, n, k, x);
  }

  /** From the line after the lost one on, everything is matched but the new lines. */
  lemma {:induction false} RestIsMatched(o: seq<string>, r: seq<string>, p: nat, u: nat, v: nat, k: nat, i: nat)
    requires |o| == p + 1 + u + v && |r| == p + 3 + u + v && u > 0 && v > 0
    requires o[p + 1..p + 1 + u] == r[p + 2..p + 2 + u] && o[p + 1 + u..p + 1 + u + v] == r[p + 3 + u..p + 3 + u + v]
    requires r[p] != o[p + 1] && r[p + 1] != o[p + 1] && r[p + 2 + u] != o[p + 1 + u]
    ensures k < |r| && !IsMatched(o, r, p + 1, p, k) ==> k <= p + 1 || k == p + 2 + u
    ensures !IsLost(o, r, p + 1, p, i)
  {
    LaterStretch(o, r, p + 1, p, p + 2, u, k, i);
    LaterStretch(o, r, p + 1 + u, p + 2 + u, p + 3 + u, v, k, i);
  }

  lemma {:induction false} FirstAfter(a: seq<string>, x: string, b: seq<string>, c: seq<string>, y: string, n: string,
                                      z: string)
    requires b != [] && c != []
    ensures
      var o, r := Worked(a, x, b, c), Reworked(a, y, n, b, z, c);
      var p, u, v := |a|, |b|, |c|;
      && o[p + 1] == b[0] && o[p + 1 + u] == c[0]
      && o[p + 1 + u..p + 1 + u + v] == c == r[p + 3 + u..p + 3 + u + v]
  {
  }

  lemma {:induction false} AllIsMatched(o: seq<string>, r: seq<string>, p: nat, u: nat, v: nat, k: nat, i: nat)
    requires |o| == p + 1 + u + v && |r| == p + 3 + u + v && u > 0 && v > 0 && o[..p] == r[..p]
    requires forall t :: p <= t < |r| ==> r[t] != o[p]
    requires o[p + 1..p + 1 + u] == r[p + 2..p + 2 + u] && o[p + 1 + u..p + 1 + u + v] == r[p + 3 + u..p + 3 + u + v]
    requires r[p] != o[p + 1] && r[p + 1] != o[p + 1] && r[p + 2 + u] != o[p + 1 + u]
    ensures k < |r| && !IsMatched(o, r, 0, 0, k) ==> k == p || k == p + 1 || k == p + 2 + u
    ensures IsLost(o, r, 0, 0, i) ==> i == p
  {
    Straight(o, r, 0, 0, p, k, i);
    LineIsLost(o, r, p, p, k, i);
    RestIsMatched(o, r, p, u, v, k, i);
  }

  lemma {:induction false} ReworkedAlignment(a: seq<string>, x: string, b: seq<string>, c: seq<string>, y: string,
                                             n: string, z: string, k: nat, i: nat)
    requires ToldApart(x, b, c, y, n, z)
    ensures
      var o, r := Worked(a, x, b, c), Reworked(a, y, n, b, z, c);
      && (k < |r| && !IsMatched(o, r, 0, 0, k) ==> k == |a| || k == |a| + 1 || k == |a| + 2 + |b|)
      && (IsLost(o, r, 0, 0, i) ==> i == |a|)
  {
    Stretches(a, x, b, c, y, n, z);
    NotBelow(a, x, b, c, y, n, z);
    FirstAfter(a, x, b, c, y, n, z);
    AllIsMatched(Worked(a, x, b, c), Reworked(a, y, n, b, z, c), |a|, |b|, |c|, k, i);
  }

  lemma {:induction false} FirstOf(o: seq<string>, r: seq<string>, i: nat, j: nat, n: nat)
    requires 0 < n && i + n <= |o| && j + n <= |r| && o[i..i + n] == r[j..j + n]
    ensures o[i] == r[j]
  {
    assert o[i..i + n][0] == o[i] && r[j..j + n][0] == r[j];
  }

  lemma {:induction false} NotBelow(a: seq<string>, x: string, b: seq<string>, c: seq<string>, y: string, n: string,
                                    z: string)
    requires ToldApart(x, b, c, y, n, z)
    ensures var r := Reworked(a, y, n, b, z, c); forall t :: |a| <= t < |r| ==> r[t] != x
  {
    var r := Reworked(a, y, n, b, z, c);
    var p, q := |a|, |b|;
    Stretches(a, x, b, c, y, n, z);
    forall t | p <= t < |r| ensures r[t] != x {
      assert p + 2 <= t < p + 2 + q ==> r[t] == r[p + 2..p + 2 + q][t - p - 2];
      assert p + 3 + q <= t ==> r[t] == r[p + 3 + q..][t - p - 3 - q];
    }
  }

  /** What holds of the new lines holds of every unmatched one, and what holds of the
      old line of every lost one. */
  lemma {:induction false} ReworkedPositions(a: seq<string>, x: string, b: seq<string>, c: seq<string>, y: string,
                                             n: string, z: string, isNew: nat -> bool, isOld: nat -> bool)
    requires ToldApart(x, b, c, y, n, z)
    requires isNew(|a|) && isNew(|a| + 1) && isNew(|a| + 2 + |b|) && isOld(|a|)
    ensures
      var o, r := Worked(a, x, b, c), Reworked(a, y, n, b, z, c);
      && (forall k :: 0 <= k < |r| && Some(k) !in Greedy(o, r, 0, 0) ==> isNew(k))
      && (forall i :: 0 <= i < |o| && Greedy(o, r, 0, 0)[i].None? ==> isOld(i))
  {
    var o, r := Worked(a, x, b, c), Reworked(a, y, n, b, z, c);
    forall k | 0 <= k < |r| && Some(k) !in Greedy(o, r, 0, 0) ensures isNew(k) {
      ReworkedAlignment(a, x, b, c, y, n, z, k, 0);
    }
    forall i | 0 <= i < |o| && Greedy(o, r, 0, 0)[i].None? ensures isOld(i) {
      ReworkedAlignment(a, x, b, c, y, n, z, 0, i);
      assert IsLost(o, r, 0, 0, i);
    }
  }

  function Insertable(o: seq<string>, r: seq<string>): nat -> bool {
    (k: nat) => k < |r| ==> MayBeInserted(o, r, k)
  }

  function Losable(o: seq<string>, r: seq<string>): nat -> bool {
    (i: nat) => i < |o| ==> OnLost(o, r, i) == []
  }

  lemma {:induction false} SilentEverywhere(o: seq<string>, r: seq<string>, m: seq<Option<nat>>)
    requires m == Greedy(o, r, 0, 0)
    requires forall k :: 0 <= k < |r| && Some(k) !in m ==> Insertable(o, r)(k)
    requires forall i :: 0 <= i < |o| && m[i].None? ==> Losable(o, r)(i)
    ensures Accepts(o, r)
  {
    AcceptsExactly(o, r);
  }

  /** The guard accepts such a text when the lost line may be lost and the three new
      ones may be inserted. */
  lemma {:induction false} ReworkIsAccepted(a: seq<string>, x: string, b: seq<string>, c: seq<string>,
                                            y: string, n: string, z: string)
    requires ToldApart(x, b, c, y, n, z)
    requires
      var o, r := Worked(a, x, b, c), Reworked(a, y, n, b, z, c);
      Losable(o, r)(|a|) && Insertable(o, r)(|a|) && Insertable(o, r)(|a| + 1) && Insertable(o, r)(|a| + 2 + |b|)
    ensures Accepts(Worked(a, x, b, c), Reworked(a, y, n, b, z, c))
  {
    var o, r := Worked(a, x, b, c), Reworked(a, y, n, b, z, c);
    ReworkedPositions(a, x, b, c, y, n, z, Insertable(o, r), Losable(o, r));
    SilentEverywhere(o, r, Greedy(o, r, 0, 0));
  }

  // ---------------------------------------------------------------------
  // Specs with a tentative priority

  const METADATA := SpecReturns.METADATA

  function Priority(value: string): string { Bullet("Priority", value) }

  function Note(raw: string, name: string): string { Bullet("Priority-Note", Normalized("priority", raw, name)) }

  function Repaired(date: string): string {
    Bullet("Repaired", date + " spec-normalizer: " + PriorityExtracted.Key())
  }

  /** A title, the bullets of the Metadata section after the priority, and the rest. */
  datatype Spec = Spec(title: string, bullets: seq<string>, rest: seq<string>)
  {
    function Head(): seq<string> { [title, METADATA] }

    function With(raw: string): seq<string> {
      Worked(Head(), Priority(raw), bullets, rest)
    }

    function Fixed(raw: string, name: string): seq<string> {
      Head() + [Priority(name), Note(raw, name)] + bullets + rest
    }

    function Stamped(raw: string, name: string, date: string): seq<string> {
      Reworked(Head(), Priority(name), Note(raw, name), bullets, Repaired(date), rest)
    }

    /** Nothing in it is tentative or marked, every bullet ends on its line, and the
        Metadata section is bullets up to the next heading. */
    ghost predicate Ordinary() {
      && IsH1(title) && bullets != [] && rest != [] && IsH2(rest[0])
      && (forall k :: 0 <= k < |bullets| ==> StartsWith(Trim(bullets[k]), "- "))
      && Closed(title) && ClosedLines(bullets) && ClosedLines(rest) && Flags(bullets) == 0 && Flags(rest) == 0
      && Unmarked([title]) && Unmarked(bullets) && Unmarked(rest)
    }
  }

  /** No line has a parenthesis, let alone the marker. */
  ghost predicate Unmarked(lines: seq<string>) {
    forall k :: 0 <= k < |lines| ==> '(' !in lines[k]
  }

  /** A tentative value on one line that begins with a token and has no parenthesis. */
  predicate TentativeToken(raw: string, name: string) {
    Tentative(raw) && Trim(raw) == raw && NoTerminator(raw) && '(' !in raw &&
    ExtractLeadingToken(raw, PRIORITIES) == Some(name)
  }

  lemma {:induction false} TokenFacts(raw: string, name: string)
    requires TentativeToken(raw, name)
    ensures raw != "" && !IsSpace(raw[0]) && PlainName(name) && raw != name && Upper(raw) != name
  {
    PrioritiesStand();
    TokenStands(raw, PRIORITIES);
    TrimmedEnds(raw);
    PlainIsFirm(name);
    if Upper(raw) == name {
      TentativeLetters(raw);
    }
  }

  function Bare(field: string): Parts {
    Parts("", " ", Tag(field), " ")
  }

  lemma {:induction false} BulletHasParts(field: string, v: string)
    ensures PartsOf(Bare(field), field) && Bullet(field, v) == Prefix(Bare(field)) + v
  {
  }

  lemma {:induction false} PriorityIsRead(v: string)
    requires v != "" && !IsSpace(v[0]) && NoTerminator(v)
    ensures ValueOf(Priority(v), "Priority") == Some(v) && !IsH2(Priority(v))
    ensures OfBullet(Trim(Priority(v))) == (Idle, Some(Trim(v)))
  {
    BulletHasParts("Priority", v);
    PartsGiveValue(Bare("Priority"), "Priority", v);
    PartsAreNeutral(Bare("Priority"), "Priority", v);
    PartsAreRead(Bare("Priority"), "Priority", v);
  }

  lemma {:induction false} PriorityIsFound(s: Spec, raw: string, name: string)
    requires IsH1(s.title) && TentativeToken(raw, name)
    ensures FieldLine(s.With(raw), "Priority") == Some(2) && FieldValue(s.With(raw), "Priority") == Some(raw)
    ensures s.With(raw)[2] == Priority(raw)
  {
    TokenFacts(raw, name);
    PriorityIsRead(raw);
    H1IsNeutral("Priority", s.title);
    SpecReturns.MetadataIsFound();
    assert s.With(raw)[0] == s.title && s.With(raw)[1] == METADATA && s.With(raw)[2] == Priority(raw);
    FieldLineIs(s.With(raw), "Priority", 1, 2);
  }

  lemma {:induction false} SpliceWorked(a: seq<string>, x: string, b: seq<string>, c: seq<string>, y: string, n: string)
    ensures Splice(Worked(a, x, b, c), |a|, 1, [y, n]) == a + [y, n] + b + c
  {
    var o := Worked(a, x, b, c);
    assert o[..|a|] == a && o[|a| + 1..] == b + c;
  }

  lemma {:induction false} RewriteAt(lines: seq<string>, raw: string, name: string, k: nat)
    requires FieldLine(lines, "Priority") == Some(k) && lines[k] == Priority(raw)
    requires ValueOf(Priority(raw), "Priority") == Some(raw)
    ensures RewriteValue(lines, "Priority", name, Some(Normalized("priority", raw, name))) ==
            Some(Splice(lines, k, 1, [Priority(name), Note(raw, name)]))
  {
    assert Priority(raw)[..|Priority(raw)| - |raw|] + name == Priority(name);
    assert "Priority" + "-Note" == "Priority-Note";
    assert NoteLines("Priority", Some(Normalized("priority", raw, name))) == [Note(raw, name)];
    assert [Priority(name)] + [Note(raw, name)] == [Priority(name), Note(raw, name)];
  }

  lemma {:induction false} PriorityIsFixed(s: Spec, raw: string, name: string)
    requires IsH1(s.title) && TentativeToken(raw, name)
    ensures FixPriority(s.With(raw)) == Some((s.Fixed(raw, name), PriorityExtracted))
  {
    PriorityIsFound(s, raw, name);
    TokenFacts(raw, name);
    PriorityIsRead(raw);
    RewriteAt(s.With(raw), raw, name, 2);
    SpliceWorked(s.Head(), Priority(raw), s.bullets, s.rest, Priority(name), Note(raw, name));
  }

  // ---------------------------------------------------------------------
  // Where the provenance line goes

  predicate IsItem(line: string) {
    StartsWith(Trim(line), "- ") && !IsH2(line)
  }

  lemma {:induction false} BulletIsItem(field: string, text: string)
    ensures IsItem(Bullet(field, text))
  {
    var rest := BulletStart(field, text);
    var t := Trim(Bullet(field, text));
    assert t == "- " + Tag(field) + rest && t[0] == '-' && t[1] == ' ';
    assert t[..2] == "- ";
    BulletIsNoHeading(Bullet(field, text));
  }

  /** Behind the bullets that fill the section up to the next heading. */
  lemma {:induction false} InsertsBehind(lines: seq<string>, first: nat, i: nat, end: nat)
    requires first <= i <= end < |lines| && IsH2(lines[end]) && forall k :: i <= k < end ==> IsItem(lines[k])
    ensures InsertIndex(lines, first, i, i) == end
    decreases end - i
  {
    if i < end {
      InsertsBehind(lines, first, i + 1, end);
    }
  }

  lemma {:induction false} FixedLines(s: Spec, raw: string, name: string)
    requires s.rest != []
    ensures
      var f, n := s.Fixed(raw, name), |s.bullets|;
      && |f| > 4 + n && f[0] == s.title && f[1] == METADATA && f[2] == Priority(name) && f[3] == Note(raw, name)
      && (forall k :: 4 <= k < 4 + n ==> f[k] == s.bullets[k - 4]) && f[4 + n] == s.rest[0]
      && f[..4 + n] == s.Head() + [Priority(name), Note(raw, name)] + s.bullets && f[4 + n..] == s.rest
  {
  }

  lemma {:induction false} SectionIsItems(s: Spec, raw: string, name: string)
    requires s.Ordinary()
    ensures var f := s.Fixed(raw, name);
            |f| > 4 + |s.bullets| && forall k :: 2 <= k < 4 + |s.bullets| ==> IsItem(f[k])
  {
    var f := s.Fixed(raw, name);
    FixedLines(s, raw, name);
    BulletIsItem("Priority", name);
    BulletIsItem("Priority-Note", Normalized("priority", raw, name));
    forall k | 4 <= k < 4 + |s.bullets| ensures IsItem(f[k]) {
      assert f[k] == s.bullets[k - 4];
      BulletIsNoHeading(f[k]);
    }
  }

  lemma {:induction false} H1IsNoMetadata(line: string)
    requires IsH1(line)
    ensures !IsMetadataHeading(line)
  {
    H1IsNeutral("Priority", line);
  }

  lemma {:induction false} SecondOf(f: seq<string>)
    requires |f| > 1 && !IsMetadataHeading(f[0]) && IsMetadataHeading(f[1])
    ensures FindMetadataHeading(f, 0) == 1
  {
    HeadingAt(f, 0, 1);
  }

  lemma {:induction false} HeadingIsSecond(f: seq<string>)
    requires |f| > 1 && IsH1(f[0]) && f[1] == METADATA
    ensures FindMetadataHeading(f, 0) == 1
  {
    H1IsNoMetadata(f[0]);
    SpecReturns.MetadataIsFound();
    SecondOf(f);
  }

  lemma {:induction false} StampGoesBehind(s: Spec, raw: string, name: string)
    requires s.Ordinary()
    ensures FindMetadataHeading(s.Fixed(raw, name), 0) == 1
    ensures MetadataInsertIndex(s.Fixed(raw, name)) == 4 + |s.bullets|
  {
    var f := s.Fixed(raw, name);
    FixedLines(s, raw, name);
    HeadingIsSecond(f);
    SectionIsItems(s, raw, name);
    InsertsBehind(f, 2, 2, 4 + |s.bullets|);
  }

  lemma {:induction false} StampedIs(s: Spec, raw: string, name: string, date: string)
    requires s.rest != []
    ensures Splice(s.Fixed(raw, name), 4 + |s.bullets|, 0, [Repaired(date)]) == s.Stamped(raw, name, date)
  {
    FixedLines(s, raw, name);
  }

  // ---------------------------------------------------------------------
  // What the test finds

  lemma {:induction false} QuietAppend(a: seq<string>, b: seq<string>)
    requires ClosedLines(a) && ClosedLines(b)
    ensures ClosedLines(a + b) && Flags(a + b) == Flags(a) + Flags(b)
  {
    FlagsAppend(a, b);
  }

  lemma {:induction false} H1IsClosed(line: string)
    requires IsH1(line) && NoTerminator(line)
    ensures Closed(line) && Flag(line) == 0
  {
    assert Trim(line)[0] == "# "[0] == '#';
    HeadingIsClosed(line);
  }

  lemma {:induction false} MetadataIsClosed()
    ensures Closed(METADATA) && Flag(METADATA) == 0
  {
    TrimmedEnds(METADATA);
    assert METADATA[0] == '#';
    HeadingIsClosed(METADATA);
  }

  lemma {:induction false} HeadIsQuiet(title: string, heading: string)
    requires Closed(title) && Closed(heading) && Flag(title) == 0 && Flag(heading) == 0
    ensures ClosedLines([title, heading]) && Flags([title, heading]) == 0
  {
    TwoFlags(title, heading);
  }

  lemma {:induction false} PriorityPrefix()
    ensures NoTerminator("- **Priority:** ")
  {
  }

  lemma {:induction false} PriorityNoTerminator(v: string)
    requires NoTerminator(v)
    ensures NoTerminator(Priority(v))
  {
    PriorityPrefix();
    ConcatNoTerminator("- **Priority:** ", v);
    assert Priority(v) == "- **Priority:** " + v;
  }

  lemma {:induction false} ReadIsClosed(line: string, v: string)
    requires NoTerminator(line) && OfBullet(Trim(line)) == (Idle, Some(v))
    ensures Closed(line) && Flag(line) == if Tentative(v) then 1 else 0
  {
  }

  lemma {:induction false} PriorityIsClosed(v: string)
    requires v != "" && !IsSpace(v[0]) && NoTerminator(v) && Trim(v) == v
    ensures Closed(Priority(v)) && Flag(Priority(v)) == if Tentative(v) then 1 else 0
  {
    PriorityIsRead(v);
    PriorityNoTerminator(v);
    ReadIsClosed(Priority(v), v);
  }

  /** The priority is the one tentative value of such a spec. */
  lemma {:induction false} OneIsTentative(s: Spec, raw: string, name: string)
    requires s.Ordinary() && TentativeToken(raw, name)
    ensures ClosedLines(s.With(raw)) && Flags(s.With(raw)) == 1
  {
    TokenFacts(raw, name);
    PriorityIsClosed(raw);
    H1IsClosed(s.title);
    MetadataIsClosed();
    HeadIsQuiet(s.title, METADATA);
    OneFlag(Priority(raw));
    QuietAppend(s.Head(), [Priority(raw)]);
    QuietAppend(s.Head() + [Priority(raw)], s.bullets);
    QuietAppend(s.Head() + [Priority(raw)] + s.bullets, s.rest);
  }

  // ---------------------------------------------------------------------
  // What the guard says

  lemma {:induction false} BulletIsTrimmed(field: string, text: string)
    requires text != "" && !IsSpace(text[|text| - 1])
    ensures Trim(Bullet(field, text)) == Bullet(field, text)
  {
    var b := Bullet(field, text);
    assert b[|b| - 1] == text[|text| - 1];
    TrimmedEnds(b);
  }

  lemma {:induction false} FieldNames()
    ensures Lower(Trim("Priority")) == "priority" && Lower(Trim("Repaired")) == "repaired"
  {
    TrimmedEnds("Priority");
    TrimmedEnds("Repaired");
  }

  lemma {:induction false} NoteName()
    ensures Lower(Trim("Priority-Note")) == "priority-note"
  {
    TrimmedEnds("Priority-Note");
  }

  lemma {:induction false} PriorityClass(v: string)
    requires v != "" && !IsSpace(v[|v| - 1])
    ensures ClassifyLine(Priority(v)) == Meta("priority")
  {
    BulletIsTrimmed("Priority", v);
    FieldNames();
    SpecReturns.BulletClass(Priority(v), "Priority", v);
  }

  lemma {:induction false} NoteClass(raw: string, name: string)
    ensures ClassifyLine(Note(raw, name)) == Meta("priority-note")
  {
    var text := Normalized("priority", raw, name);
    assert text[|text| - 1] == 'r';
    BulletIsTrimmed("Priority-Note", text);
    NoteName();
    SpecReturns.BulletClass(Note(raw, name), "Priority-Note", text);
  }

  lemma {:induction false} RepairedClass(date: string)
    ensures ClassifyLine(Repaired(date)) == Meta("repaired")
  {
    var text := date + " spec-normalizer: " + PriorityExtracted.Key();
    assert text[|text| - 1] == PriorityExtracted.Key()[|PriorityExtracted.Key()| - 1] == 'd';
    BulletIsTrimmed("Repaired", text);
    FieldNames();
    SpecReturns.BulletClass(Repaired(date), "Repaired", text);
  }

  lemma {:induction false} ItemIsNoHeading(line: string)
    requires StartsWith(Trim(line), "- ")
    ensures !ClassifyLine(line).Heading?
  {
    assert Trim(line)[0] == "- "[0] == '-' && "## "[0] == '#';
  }

  lemma {:induction false} MetadataReaches(r: seq<string>, h: nat, k: nat)
    requires h <= k < |r| && ClassifyLine(r[h]) == Heading("metadata")
    requires forall j :: h < j <= k ==> !ClassifyLine(r[j]).Heading?
    ensures InMetadata(r, k)
    decreases k
  {
    if h < k {
      MetadataReaches(r, h, k - 1);
    }
  }

  lemma {:induction false} StampedLines(s: Spec, raw: string, name: string, date: string)
    requires s.rest != []
    ensures
      var r, n := s.Stamped(raw, name, date), |s.bullets|;
      && |r| > 5 + n && r[0] == s.title && r[1] == METADATA && r[2] == Priority(name) && r[3] == Note(raw, name)
      && (forall k :: 4 <= k < 4 + n ==> r[k] == s.bullets[k - 4]) && r[4 + n] == Repaired(date)
  {
  }

  lemma {:induction false} MetadataReachesAll(r: seq<string>, end: nat)
    requires 1 < end < |r| && ClassifyLine(r[1]) == Heading("metadata")
    requires forall j :: 2 <= j <= end ==> !IsHeading()(r[j])
    ensures forall k :: 2 <= k <= end ==> InMetadata(r, k)
  {
    forall k | 2 <= k <= end ensures InMetadata(r, k) {
      MetadataReaches(r, 1, k);
    }
  }

  lemma {:induction false} ItemsAreNoHeadings(lines: seq<string>)
    requires forall k :: 0 <= k < |lines| ==> StartsWith(Trim(lines[k]), "- ")
    ensures forall k :: 0 <= k < |lines| ==> !IsHeading()(lines[k])
  {
    forall k | 0 <= k < |lines| ensures !IsHeading()(lines[k]) {
      ItemIsNoHeading(lines[k]);
    }
  }

  /** A rewritten priority, its note, and the provenance line at `k`. */
  predicate NewLineClasses(r: seq<string>, k: nat) {
    3 < k < |r| && ClassifyLine(r[1]) == Heading("metadata") && ClassifyLine(r[2]) == Meta("priority") &&
    ClassifyLine(r[3]) == Meta("priority-note") && ClassifyLine(r[k]) == Meta("repaired")
  }

  lemma {:induction false} StampedClasses(s: Spec, raw: string, name: string, date: string)
    requires s.rest != [] && PlainName(name)
    ensures NewLineClasses(s.Stamped(raw, name, date), 4 + |s.bullets|)
  {
    StampedLines(s, raw, name, date);
    SpecReturns.MetadataClass();
    NameEnds(name);
    PriorityClass(name);
    NoteClass(raw, name);
    RepairedClass(date);
  }

  /** The lines from the new ones to the provenance line are in the section. */
  lemma {:induction false} NewLinesAreNoHeadings(r: seq<string>, k: nat)
    requires NewLineClasses(r, k)
    ensures !ClassifyLine(r[2]).Heading? && !ClassifyLine(r[3]).Heading? && !ClassifyLine(r[k]).Heading?
  {
  }

  lemma {:induction false} NoneAlong(p: string -> bool, r: seq<string>, b: seq<string>)
    requires |r| > 4 + |b| && forall k :: 4 <= k < 4 + |b| ==> r[k] == b[k - 4]
    requires !p(r[2]) && !p(r[3]) && !p(r[4 + |b|]) && forall k :: 0 <= k < |b| ==> !p(b[k])
    ensures forall k :: 2 <= k <= 4 + |b| ==> !p(r[k])
  {
  }

  function IsHeading(): string -> bool {
    (line: string) => ClassifyLine(line).Heading?
  }

  lemma {:induction false} NewLinesInSection(r: seq<string>, bullets: seq<string>)
    requires NewLineClasses(r, 4 + |bullets|)
    requires forall k :: 4 <= k < 4 + |bullets| ==> r[k] == bullets[k - 4]
    requires forall k :: 0 <= k < |bullets| ==> !IsHeading()(bullets[k])
    ensures forall k :: 2 <= k <= 4 + |bullets| ==> InMetadata(r, k)
  {
    NewLinesAreNoHeadings(r, 4 + |bullets|);
    NoneAlong(IsHeading(), r, bullets);
    MetadataReachesAll(r, 4 + |bullets|);
  }

  lemma {:induction false} NameEnds(name: string)
    requires PlainName(name)
    ensures !IsSpace(name[|name| - 1])
  {
    assert name[|name| - 1] in name;
  }

  lemma {:induction false} BulletMayBeInserted(o: seq<string>, r: seq<string>, k: nat, field: string)
    requires k < |r| && MetaAt(r, k, field)
    requires field in NOTE_FIELDS || (field in ENVELOPE_FIELDS && HasFieldNote(r, field))
    ensures MayBeInserted(o, r, k)
  {
  }

  lemma {:induction false} FindMetaSome(r: seq<string>, field: string, j: nat, k: nat)
    requires j <= k < |r| && MetaAt(r, k, field)
    ensures FindMeta(r, field, j) <= k
    decreases k - j
  {
    if j < k && !MetaAt(r, j, field) {
      FindMetaSome(r, field, j + 1, k);
    }
  }

  lemma {:induction false} BulletMayBeLost(o: seq<string>, r: seq<string>, i: nat, k: nat, field: string)
    requires i < |o| && k < |r| && MetaAt(o, i, field) && MetaAt(r, k, field)
    requires field in ENVELOPE_FIELDS && HasFieldNote(r, field)
    ensures OnLost(o, r, i) == []
  {
    FindMetaSome(r, field, 0, k);
  }

  predicate HasNewLines(r: seq<string>, k: nat) {
    3 < k < |r| && MetaAt(r, 2, "priority") && MetaAt(r, 3, "priority-note") && MetaAt(r, k, "repaired")
  }

  lemma {:induction false} StampedHasNewLines(s: Spec, raw: string, name: string, date: string)
    requires s.Ordinary() && PlainName(name)
    ensures HasNewLines(s.Stamped(raw, name, date), 4 + |s.bullets|)
  {
    StampedClasses(s, raw, name, date);
    StampedLines(s, raw, name, date);
    ItemsAreNoHeadings(s.bullets);
    NewLinesInSection(s.Stamped(raw, name, date), s.bullets);
  }

  lemma {:induction false} HasNoteAt(r: seq<string>, k: nat, field: string, note: string)
    requires k < |r| && MetaAt(r, k, note) && note == field + "-note"
    ensures HasFieldNote(r, field)
  {
  }

  lemma {:induction false} NewLinesHaveNote(r: seq<string>, k: nat)
    requires HasNewLines(r, k)
    ensures HasFieldNote(r, "priority")
  {
    HasNoteAt(r, 3, "priority", "priority-note");
  }

  lemma {:induction false} NewLinesMayBeInserted(o: seq<string>, r: seq<string>, k: nat)
    requires HasNewLines(r, k)
    ensures MayBeInserted(o, r, 2) && MayBeInserted(o, r, 3) && MayBeInserted(o, r, k)
  {
    NewLinesHaveNote(r, k);
    BulletMayBeInserted(o, r, 2, "priority");
    BulletMayBeInserted(o, r, 3, "priority-note");
    BulletMayBeInserted(o, r, k, "repaired");
  }

  lemma {:induction false} StandsUnderHeading(o: seq<string>, field: string)
    requires |o| > 2 && ClassifyLine(o[1]) == Heading("metadata") && ClassifyLine(o[2]) == Meta(field)
    ensures MetaAt(o, 2, field)
  {
    assert InMetadata(o, 1);
  }

  lemma {:induction false} PriorityStands(s: Spec, raw: string)
    requires raw != "" && !IsSpace(raw[|raw| - 1])
    ensures |s.With(raw)| > 2 && MetaAt(s.With(raw), 2, "priority")
  {
    var o := s.With(raw);
    PriorityClass(raw);
    SpecReturns.MetadataClass();
    assert o[1] == METADATA && o[2] == Priority(raw);
    StandsUnderHeading(o, "priority");
  }

  lemma {:induction false} OldLineMayBeLost(o: seq<string>, r: seq<string>, k: nat)
    requires |o| > 2 && MetaAt(o, 2, "priority") && HasNewLines(r, k)
    ensures OnLost(o, r, 2) == []
  {
    NewLinesHaveNote(r, k);
    BulletMayBeLost(o, r, 2, 2, "priority");
  }

  lemma {:induction false} NoFlags(lines: seq<string>)
    requires Flags(lines) == 0
    ensures forall k :: 0 <= k < |lines| ==> Flag(lines[k]) == 0
  {
    if lines != [] {
      NoFlags(lines[1..]);
      assert forall k :: 1 <= k < |lines| ==> lines[k] == lines[1..][k - 1];
    }
  }

  lemma {:induction false} FlaggedIsElsewhere(line: string, lines: seq<string>)
    requires Flag(line) == 1 && Flags(lines) == 0
    ensures line !in lines
  {
    NoFlags(lines);
  }

  lemma {:induction false} NewLinesDiffer(raw: string, name: string, date: string)
    requires raw != name
    ensures Priority(raw) != Priority(name) && Priority(raw) != Note(raw, name) && Priority(raw) != Repaired(date)
  {
    assert Priority(raw)[16..] == raw && Priority(name)[16..] == name;
    assert Priority(raw)[12] == ':' && Note(raw, name)[12] == '-';
    assert Priority(raw)[4] == 'P' && Repaired(date)[4] == 'R';
  }

  lemma {:induction false} LinesAreToldApart(s: Spec, raw: string, name: string, date: string)
    requires s.Ordinary() && TentativeToken(raw, name)
    requires s.bullets[0] != Priority(name) && s.bullets[0] != Note(raw, name)
    ensures ToldApart(Priority(raw), s.bullets, s.rest, Priority(name), Note(raw, name), Repaired(date))
  {
    TokenFacts(raw, name);
    PriorityIsClosed(raw);
    FlaggedIsElsewhere(Priority(raw), s.bullets);
    FlaggedIsElsewhere(Priority(raw), s.rest);
    NewLinesDiffer(raw, name, date);
    BulletIsItem("Repaired", date + " spec-normalizer: " + PriorityExtracted.Key());
  }

  lemma {:induction false} NewLinesAreInsertable(o: seq<string>, r: seq<string>, k: nat)
    requires HasNewLines(r, k)
    ensures Insertable(o, r)(2) && Insertable(o, r)(3) && Insertable(o, r)(k)
  {
    NewLinesMayBeInserted(o, r, k);
  }

  lemma {:induction false} OldLineIsLosable(o: seq<string>, r: seq<string>, k: nat)
    requires |o| > 2 && MetaAt(o, 2, "priority") && HasNewLines(r, k)
    ensures Losable(o, r)(2)
  {
    OldLineMayBeLost(o, r, k);
  }

  lemma {:induction false} GuardAccepts(s: Spec, raw: string, name: string, date: string)
    requires s.Ordinary() && TentativeToken(raw, name)
    requires s.bullets[0] != Priority(name) && s.bullets[0] != Note(raw, name)
    ensures Accepts(s.With(raw), s.Stamped(raw, name, date))
  {
    TokenFacts(raw, name);
    TrimmedEnds(raw);
    LinesAreToldApart(s, raw, name, date);
    StampedHasNewLines(s, raw, name, date);
    PriorityStands(s, raw);
    NewLinesAreInsertable(s.With(raw), s.Stamped(raw, name, date), 4 + |s.bullets|);
    OldLineIsLosable(s.With(raw), s.Stamped(raw, name, date), 4 + |s.bullets|);
    ReworkIsAccepted(s.Head(), Priority(raw), s.bullets, s.rest, Priority(name), Note(raw, name), Repaired(date));
  }

  // ---------------------------------------------------------------------
  // The gate is lost

  /** When all names that lead a value stand for one, that one is extracted. */
  lemma {:induction false} OneTokenLeads(t: string, candidates: seq<Candidate>, c: Candidate)
    requires c in candidates && Leads(t, c) && forall x :: x in candidates && Leads(t, x) ==> x.1 == c.1
    ensures FirstToken(t, candidates) == Some(c.1)
  {
    assert candidates[0] in candidates;
    if !Leads(t, candidates[0]) {
      assert c in candidates[1..] && forall x :: x in candidates[1..] ==> x in candidates;
      OneTokenLeads(t, candidates[1..], c);
    }
  }

  lemma {:induction false} TokenIsExtracted(t: string, candidates: seq<Candidate>, c: Candidate)
    requires Trim(t) == t && c in candidates && Leads(t, c)
    requires forall x :: x in candidates && Leads(t, x) ==> x.1 == c.1
    ensures ExtractLeadingToken(t, candidates) == Some(c.1)
  {
    forall x ensures x in LongestFirst(candidates) <==> x in candidates {
      LongestFirstMembers(candidates, x);
    }
    OneTokenLeads(t, LongestFirst(candidates), c);
  }

  lemma {:induction false} UnmarkedText(lines: seq<string>)
    requires Unmarked(lines)
    ensures '(' !in JoinLines(lines)
  {
    if |lines| > 1 {
      UnmarkedText(lines[1..]);
    }
  }

  lemma {:induction false} CrlfAddsNone(s: string)
    requires '(' !in s
    ensures '(' !in ToCrlf(s)
  {
    if s != "" {
      assert s[0] in s && forall c :: c in s[1..] ==> c in s;
      CrlfAddsNone(s[1..]);
    }
  }

  lemma {:induction false} UnmarkedHoldsNone(original: string, s: string)
    requires '(' !in s
    ensures !Contains(InLineEndsOf(original, s), SpecFixes.MARKER)
  {
    CrlfAddsNone(s);
    assert SpecFixes.MARKER[0] == '(';
    ContainsChars(InLineEndsOf(original, s), SpecFixes.MARKER, '(');
  }

  lemma {:induction false} RoundExtracts(parse: Parser, s: Spec, raw: string, name: string, options: Options,
                                         message: string)
    requires s.Ordinary() && TentativeToken(raw, name)
    requires parse(s.With(raw)) == TaskParseError(message) && message != "" && FixFor(message) == InvalidPriority
    requires parse(s.Fixed(raw, name)).Parsed?
    ensures Rounds(parse, FixerFor(options), Draft(ToLf(JoinLines(s.With(raw))), []), "", MAX_FIX_ITERATIONS).0 ==
            Some(Draft(JoinLines(s.Fixed(raw, name)), [PriorityExtracted]))
  {
    SpecLines(s, raw, name, "");
    ClosedLf(JoinLines(s.With(raw)));
    PriorityIsFixed(s, raw, name);
    SpecReturns.OneRound(parse, FixerFor(options), ToLf(JoinLines(s.With(raw))), message,
                         Draft(JoinLines(s.Fixed(raw, name)), [PriorityExtracted]), MAX_FIX_ITERATIONS);
  }

  lemma {:induction false} StampIsAdded(s: Spec, raw: string, name: string, date: string)
    requires s.Ordinary() && SplitLines(JoinLines(s.Fixed(raw, name))) == s.Fixed(raw, name)
    ensures AddProvenance(JoinLines(s.Fixed(raw, name)), [PriorityExtracted], date) ==
            JoinLines(s.Stamped(raw, name, date))
  {
    StampGoesBehind(s, raw, name);
    StampedIs(s, raw, name, date);
    FixedLines(s, raw, name);
    assert JoinActions([PriorityExtracted]) == PriorityExtracted.Key();
  }

  lemma {:induction false} RunExtracts(parse: Parser, s: Spec, raw: string, name: string, options: Options,
                                       message: string)
    requires s.Ordinary() && TentativeToken(raw, name) && NoTerminator(options.date)
    requires s.bullets[0] != Priority(name) && s.bullets[0] != Note(raw, name)
    requires parse(s.With(raw)) == TaskParseError(message) && message != "" && FixFor(message) == InvalidPriority
    requires parse(s.Fixed(raw, name)).Parsed? && parse(s.Stamped(raw, name, options.date)).Parsed?
    ensures
      var content := JoinLines(s.With(raw));
      Normalize(parse, content, options) ==
      NormalizeResult(true, InLineEndsOf(content, JoinLines(s.Stamped(raw, name, options.date))),
                      [PriorityExtracted], true)
  {
    SpecLines(s, raw, name, options.date);
    RoundExtracts(parse, s, raw, name, options, message);
    StampIsAdded(s, raw, name, options.date);
    GuardAccepts(s, raw, name, options.date);
  }

  /** The three texts are read back as they were joined. */
  lemma {:induction false} SpecLines(s: Spec, raw: string, name: string, date: string)
    requires s.Ordinary() && TentativeToken(raw, name) && NoTerminator(date)
    ensures SplitLines(JoinLines(s.With(raw))) == s.With(raw) && ClosedLines(s.With(raw))
    ensures SplitLines(JoinLines(s.Fixed(raw, name))) == s.Fixed(raw, name)
    ensures SplitLines(JoinLines(s.Stamped(raw, name, date))) == s.Stamped(raw, name, date)
  {
    OneIsTentative(s, raw, name);
    ClosedJoin(s.With(raw));
    PriorityIsFound(s, raw, name);
    PriorityIsFixed(s, raw, name);
    ExtractionEffect(s.With(raw));
    ClosedJoin(s.Fixed(raw, name));
    StampIsClosed(s, raw, name, date);
  }

  lemma {:induction false} StampIsClosed(s: Spec, raw: string, name: string, date: string)
    requires s.rest != [] && ClosedLines(s.Fixed(raw, name)) && NoTerminator(date)
    ensures SplitLines(JoinLines(s.Stamped(raw, name, date))) == s.Stamped(raw, name, date)
  {
    KeyNoTerminator(PriorityExtracted);
    ConcatNoTerminator(date, " spec-normalizer: ");
    ConcatNoTerminator(date + " spec-normalizer: ", PriorityExtracted.Key());
    OtherBulletIsClosed("Repaired", date + " spec-normalizer: " + PriorityExtracted.Key());
    FixedLines(s, raw, name);
    SpliceClosed(s.Fixed(raw, name), 4 + |s.bullets|, 0, [Repaired(date)]);
    StampedIs(s, raw, name, date);
    ClosedJoin(s.Stamped(raw, name, date));
  }

  lemma {:induction false} UnmarkedAppend(a: seq<string>, b: seq<string>)
    requires Unmarked(a) && Unmarked(b)
    ensures Unmarked(a + b)
  {
  }

  lemma {:induction false} NameIsUnmarked(name: string)
    requires PlainName(name)
    ensures '(' !in name
  {
  }

  lemma {:induction false} NewLinesAreUnmarked(raw: string, name: string, date: string)
    requires '(' !in raw && '(' !in name && '(' !in date
    ensures Unmarked([Priority(name), Note(raw, name)]) && Unmarked([Repaired(date)])
  {
    assert '(' !in Priority(name);
    assert '(' !in Normalized("priority", raw, name);
    assert '(' !in Note(raw, name);
    assert '(' !in PriorityExtracted.Key();
    assert '(' !in Repaired(date);
  }

  lemma {:induction false} StampedIsUnmarked(s: Spec, raw: string, name: string, date: string)
    requires s.Ordinary() && TentativeToken(raw, name) && '(' !in date
    ensures Unmarked(s.Stamped(raw, name, date))
  {
    TokenFacts(raw, name);
    NameIsUnmarked(name);
    NewLinesAreUnmarked(raw, name, date);
    assert '(' !in METADATA && [s.title] + [METADATA] == s.Head();
    UnmarkedAppend([s.title], [METADATA]);
    UnmarkedAppend(s.Head(), [Priority(name), Note(raw, name)]);
    UnmarkedAppend(s.Head() + [Priority(name), Note(raw, name)], s.bullets);
    UnmarkedAppend(s.Head() + [Priority(name), Note(raw, name)] + s.bullets, [Repaired(date)]);
    UnmarkedAppend(s.Head() + [Priority(name), Note(raw, name)] + s.bullets + [Repaired(date)], s.rest);
  }

  /** Whatever the spec around it: a tentative priority that begins with a token is the
      one thing that holds the submission back, a parser that reports it as invalid and
      accepts the token has it resolved, and the result is held back no more. */
  lemma {:induction false} TentativeTokenLosesItsGate(parse: Parser, s: Spec, raw: string, name: string,
                                                      options: Options, message: string)
    requires s.Ordinary() && TentativeToken(raw, name) && NoTerminator(options.date) && '(' !in options.date
    requires s.bullets[0] != Priority(name) && s.bullets[0] != Note(raw, name)
    requires parse(s.With(raw)) == TaskParseError(message) && message != "" && FixFor(message) == InvalidPriority
    requires parse(s.Fixed(raw, name)).Parsed? && parse(s.Stamped(raw, name, options.date)).Parsed?
    ensures
      var content := JoinLines(s.With(raw));
      var r := Normalize(parse, content, options);
      HasUnresolvedRepairMarkers(content) && r.resolved && !HasUnresolvedRepairMarkers(r.content)
  {
    var content := JoinLines(s.With(raw));
    var r := Normalize(parse, content, options);
    RunExtracts(parse, s, raw, name, options, message);
    SpecLines(s, raw, name, options.date);
    OneIsTentative(s, raw, name);
    UnfinishedByLine(content);
    EmptyIsFinished();
    OnlyExtraction();
    PriorityIsFound(s, raw, name);
    GateLosesExactly(parse, content, options, r);
    StampedIsUnmarked(s, raw, name, options.date);
    UnmarkedText(s.Stamped(raw, name, options.date));
    UnmarkedHoldsNone(content, JoinLines(s.Stamped(raw, name, options.date)));
  }

  lemma {:induction false} OnlyExtraction()
    ensures !Invents([PriorityExtracted]) && PriorityExtracted in [PriorityExtracted]
    ensures StatusNormalized !in [PriorityExtracted]
  {
  }

  // ---------------------------------------------------------------------
  // Such a value

  const TENTATIVE := "P1 - TBD"

  lemma {:induction false} ItIsTentative()
    ensures Tentative(TENTATIVE)
  {
    assert Upper(TENTATIVE)[5..8] == "TBD";
    assert TbdAt(TENTATIVE, 5);
  }

  lemma {:induction false} ItIsPlain()
    ensures Trim(TENTATIVE) == TENTATIVE && NoTerminator(TENTATIVE) && '(' !in TENTATIVE
  {
    TrimmedEnds(TENTATIVE);
  }

  lemma {:induction false} SuchAValueExists()
    ensures TentativeToken(TENTATIVE, "P1-HIGH")
  {
    ItIsTentative();
    ItIsPlain();
    SuffixIsAdministrative();
    OnlyOneLeads();
    TokenIsExtracted(TENTATIVE, PRIORITIES, ("P1", "P1-HIGH"));
  }

  lemma {:induction false} SuffixIsAdministrative()
    ensures Leads(TENTATIVE, ("P1", "P1-HIGH"))
  {
    assert Upper(TENTATIVE) == TENTATIVE && TENTATIVE[..2] == "P1";
    assert TENTATIVE[2..] == " " + "- TBD";
    TrimStartDrops(" ", "- TBD");
  }

  lemma {:induction false} SecondLetters()
    ensures forall k :: 0 <= k < |PRIORITIES| ==>
              |PRIORITIES[k].0| >= 2 && (PRIORITIES[k].0[1] == '1' ==> PRIORITIES[k].1 == "P1-HIGH")
  {
  }

  lemma {:induction false} OnlyOneLeads()
    ensures ("P1", "P1-HIGH") in PRIORITIES
    ensures forall x :: x in PRIORITIES && Leads(TENTATIVE, x) ==> x.1 == "P1-HIGH"
  {
    assert Upper(TENTATIVE)[1] == '1';
    assert PRIORITIES[5] == ("P1", "P1-HIGH");
    SecondLetters();
    forall x | x in PRIORITIES && Leads(TENTATIVE, x) ensures x.1 == "P1-HIGH" {
      var k :| 0 <= k < |PRIORITIES| && PRIORITIES[k] == x;
      assert x.0[1] == Upper(TENTATIVE)[1];
    }
  }

  // ---------------------------------------------------------------------
  // A value on the line after its tag

  const EFFORT := "- **Effort:**"
  const VALUE := "TBD"

  /** An effort whose value continues on the next line. */
  const WRAPPED := [METADATA, EFFORT, VALUE]

  function Cut(date: string): seq<string> {
    [METADATA, EFFORT, Repaired(date), VALUE]
  }

  lemma {:induction false} BareTagIsOpen()
    ensures AfterTag(Tag("Effort")) == Some("")
  {
    var u := Tag("Effort");
    assert u[2] == 'E';
    NotTag(u, Tag("Priority"), 2);
    assert u[..|u|] == u && u[|u|..] == "";
  }

  lemma {:induction false} EffortIsOpen()
    ensures NoTerminator(EFFORT) && Trim(EFFORT) == EFFORT && OfBullet(EFFORT) == (Tagged, None)
  {
    TrimmedEnds(EFFORT);
    assert EFFORT[1..] == " " + Tag("Effort");
    TrimStartDrops(" ", Tag("Effort"));
    BareTagIsOpen();
    assert Trim("") == "";
  }

  lemma {:induction false} ValueIsTentative()
    ensures NoTerminator(VALUE) && Trim(VALUE) == VALUE && Tentative(VALUE) && OfBullet(VALUE) == (Idle, None)
  {
    TrimmedEnds(VALUE);
    assert Upper(VALUE)[0..3] == "TBD";
    assert TbdAt(VALUE, 0);
    assert VALUE[0] != '-' && "-"[0] == '-';
  }

  lemma {:induction false} HeadingIsText()
    ensures NoTerminator(METADATA) && Trim(METADATA) == METADATA && OfBullet(METADATA) == (Idle, None)
  {
    TrimmedEnds(METADATA);
    assert METADATA[0] == '#' && "-"[0] == '-';
  }

  predicate OneText(line: string) {
    NoTerminator(line) && Trim(line) == line != ""
  }

  /** Lines that are texts themselves. */
  lemma {:induction false} TextsThemselves(lines: seq<string>)
    requires forall k :: 0 <= k < |lines| ==> OneText(lines[k])
    ensures TextsOfLines(lines) == lines
  {
    if lines != [] {
      assert OneText(lines[0]);
      TextsThemselves(lines[1..]);
      TextsOfLine(lines[0]);
      assert lines == [lines[0]] + lines[1..];
    }
  }

  /** A bare tag takes the next text as its value, whatever that is. */
  lemma {:induction false} TagTakesNext(h: string, e: string, v: string, rest: seq<string>)
    requires OfBullet(h) == (Idle, None) && OfBullet(e) == (Tagged, None)
    ensures Found(Idle, [h, e, v] + rest) == (if Tentative(v) then 1 else 0) + Found(Idle, rest)
  {
    var all := [h, e, v] + rest;
    assert all[1..] == [e, v] + rest && ([e, v] + rest)[1..] == [v] + rest && ([v] + rest)[1..] == rest;
    assert Found(Tagged, [v] + rest) == (if Tentative(v) then 1 else 0) + Found(Idle, rest);
    assert Found(Idle, [e, v] + rest) == Found(Tagged, [v] + rest);
  }

  lemma {:induction false} TextIsPassed(t: string)
    requires OfBullet(t) == (Idle, None)
    ensures Found(Idle, [t]) == 0 && Found(Idle, []) == 0
  {
    assert [t][1..] == [];
  }

  lemma {:induction false} WrappedIsFound()
    ensures Unfinished(JoinLines(WRAPPED)) == 1
  {
    HeadingIsText();
    EffortIsOpen();
    ValueIsTentative();
    TextsThemselves(WRAPPED);
    TextsOfJoin(WRAPPED);
    TagTakesNext(METADATA, EFFORT, VALUE, []);
    assert [METADATA, EFFORT, VALUE] + [] == WRAPPED;
    TextIsPassed(VALUE);
  }

  predicate IsDay(date: string) {
    forall c :: c in date ==> IsDigit(c) || c == '-'
  }

  lemma {:induction false} RepairedIsFirm(date: string)
    requires IsDay(date)
    ensures NoTerminator(Repaired(date)) && Trim(Repaired(date)) == Repaired(date) && !Tentative(Repaired(date))
  {
    var r := Repaired(date);
    RepairedLetters(date);
    forall c | c in Upper(r) ensures c != 'B' && c != 'H' {
      var k :| 0 <= k < |r| && Upper(r)[k] == c;
      assert UpperChar(r[k]) == c && r[k] in r;
    }
    if Tentative(r) {
      TentativeLetters(r);
    }
    assert r[|r| - 1] == PriorityExtracted.Key()[|PriorityExtracted.Key()| - 1] == 'd';
    TrimmedEnds(r);
  }

  lemma {:induction false} RepairedLetters(date: string)
    requires IsDay(date)
    ensures forall c :: c in Repaired(date) ==>
              !IsLineTerminator(c) && c != 'b' && c != 'B' && c != 'h' && c != 'H'
  {
    LiteralLetters();
    var text := date + " spec-normalizer: " + PriorityExtracted.Key();
    assert forall c :: c in text ==> c in date || c in " spec-normalizer: " || c in PriorityExtracted.Key();
    assert Repaired(date) == "- **Repaired:** " + text;
  }

  lemma {:induction false} LiteralLetters()
    ensures forall c :: c in "- **Repaired:** " || c in " spec-normalizer: " || c in PriorityExtracted.Key() ==>
              !IsLineTerminator(c) && c != 'b' && c != 'B' && c != 'h' && c != 'H'
  {
  }

  lemma {:induction false} CutIsFinished(date: string)
    requires IsDay(date)
    ensures Unfinished(JoinLines(Cut(date))) == 0
  {
    RepairedIsFirm(date);
    HeadingIsText();
    EffortIsOpen();
    ValueIsTentative();
    CutTexts(METADATA, EFFORT, Repaired(date), VALUE);
    TagTakesNext(METADATA, EFFORT, Repaired(date), [VALUE]);
    TextIsPassed(VALUE);
  }

  lemma {:induction false} CutTexts(h: string, e: string, r: string, v: string)
    requires OneText(h) && OneText(e) && OneText(r) && OneText(v)
    ensures Texts(JoinLines([h, e, r, v])) == [h, e, r] + [v]
  {
    TextsThemselves([h, e, r, v]);
    TextsOfJoin([h, e, r, v]);
  }

  lemma {:induction false} CutAt()
    ensures FindMetadataHeading(WRAPPED, 0) == 0 && MetadataInsertIndex(WRAPPED) == 2
  {
    SpecReturns.MetadataIsFound();
    EffortIsOpen();
    ValueIsTentative();
    assert EFFORT[..2] == "- " && EFFORT[0] == '-' && VALUE[0] == 'T' && "## "[0] == '#' && "- "[0] == '-';
    assert InsertIndex(WRAPPED, 1, 3, 2) == 2;
    assert InsertIndex(WRAPPED, 1, 2, 2) == 2;
  }

  /** The provenance line goes between an envelope bullet and its value on the next
      line: the value was found tentative before, and is not found any more. */
  lemma {:induction false} WrappedValueIsCutOff(date: string)
    requires IsDay(date)
    ensures
      var repaired := AddProvenance(JoinLines(WRAPPED), [PriorityExtracted], date);
      Unfinished(JoinLines(WRAPPED)) == 1 && Unfinished(repaired) == 0
  {
    WrappedIsFound();
    CutIsFinished(date);
    CutAt();
    WrappedLines();
    assert JoinActions([PriorityExtracted]) == PriorityExtracted.Key();
    assert Splice(WRAPPED, 2, 0, [Repaired(date)]) == Cut(date);
  }

  lemma {:induction false} WrappedLines()
    ensures SplitLines(JoinLines(WRAPPED)) == WRAPPED
  {
    HeadingIsText();
    EffortIsOpen();
    ValueIsTentative();
    SplitLast(VALUE);
    SplitFirst(EFFORT, VALUE);
    SplitFirst(METADATA, EFFORT + "\n" + VALUE);
    ClosedDrop(METADATA);
    ClosedDrop(EFFORT);
    JoinFirst(EFFORT, [VALUE]);
    JoinFirst(METADATA, [EFFORT, VALUE]);
    assert [EFFORT] + [VALUE] == [EFFORT, VALUE] && [METADATA] + [EFFORT, VALUE] == WRAPPED;
  }

  lemma {:induction false} ClosedDrop(line: string)
    requires NoTerminator(line)
    ensures DropCr(line) == line
  {
    assert line != "" ==> line[|line| - 1] in line;
  }
}
