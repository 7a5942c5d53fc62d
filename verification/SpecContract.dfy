/** What a spec promises: its text without the bookkeeping lines of its Metadata
    section. */
module SpecContract {
  import opened Text
  import opened Lines

  // ---------------------------------------------------------------------
  // Line shapes

  predicate IsFence(line: string) {
    var i := SpacesEnd(line, 0);
    OccursAt(line, "```", i) || OccursAt(line, "~~~", i)
  }

  /** The end of the run of `#` at `i`. */
  function HashesEnd(s: string, i: nat): (e: nat)
    requires i <= |s|
    ensures i <= e <= |s|
    decreases |s| - i
  {
    if i < |s| && s[i] == '#' then HashesEnd(s, i + 1) else i
  }

  predicate IsHeading(line: string) {
    var i := SpacesEnd(line, 0);
    var e := HashesEnd(line, i);
    1 <= e - i <= 6 && e < |line| && IsSpace(line[e])
  }

  predicate IsMetadataHeading(line: string) {
    IsHeading(line) && Lower(Trim(line[HashesEnd(line, SpacesEnd(line, 0))..])) == "metadata"
  }

  /** The lines that status writers and the normalizer maintain. */
  predicate IsOperational(line: string) {
    var i := SpacesEnd(line, 0);
    var j := if i < |line| && line[i] == '-' then SpacesEnd(line, i + 1) else i;
    OccursAt(line, "**Status:**", j) || OccursAt(line, "**Status-Note:**", j) || OccursAt(line, "**Repaired:**", j)
  }

  datatype Kind = Fence | MetadataHeading | OtherHeading | Operational | Plain

  function KindOf(line: string): Kind {
    if IsFence(line) then Fence
    else if IsMetadataHeading(line) then MetadataHeading
    else if IsHeading(line) then OtherHeading
    else if IsOperational(line) then Operational
    else Plain
  }

  function Kinds(lines: seq<string>): (ks: seq<Kind>)
    ensures |ks| == |lines| && forall i :: 0 <= i < |lines| ==> ks[i] == KindOf(lines[i])
  {
    seq(|lines|, i requires 0 <= i < |lines| => KindOf(lines[i]))
  }

  lemma {:induction false} FirstCharOf(s: string, p: string, i: nat)
    requires OccursAt(s, p, i) && p != ""
    ensures i < |s| && s[i] == p[0]
  {
    assert s[i..i + |p|][0] == p[0];
  }

  lemma {:induction false} FenceStart(line: string)
    requires IsFence(line)
    ensures var i := SpacesEnd(line, 0); i < |line| && (line[i] == '`' || line[i] == '~')
  {
    var i := SpacesEnd(line, 0);
    if OccursAt(line, "```", i) {
      FirstCharOf(line, "```", i);
    } else {
      FirstCharOf(line, "~~~", i);
    }
  }

  lemma {:induction false} HeadingStart(line: string)
    requires IsHeading(line)
    ensures var i := SpacesEnd(line, 0); i < |line| && line[i] == '#'
  {
  }

  lemma {:induction false} OperationalStart(line: string)
    requires IsOperational(line)
    ensures var i := SpacesEnd(line, 0); i < |line| && (line[i] == '-' || line[i] == '*')
  {
    var i := SpacesEnd(line, 0);
    if i == |line| || line[i] != '-' {
      if OccursAt(line, "**Status:**", i) {
        FirstCharOf(line, "**Status:**", i);
      } else if OccursAt(line, "**Status-Note:**", i) {
        FirstCharOf(line, "**Status-Note:**", i);
      } else {
        FirstCharOf(line, "**Repaired:**", i);
      }
    }
  }

  /** No line is of two kinds. */
  lemma {:induction false} KindsAreExclusive(line: string)
    ensures IsFence(line) <==> KindOf(line) == Fence
    ensures IsMetadataHeading(line) <==> KindOf(line) == MetadataHeading
    ensures IsHeading(line) <==> KindOf(line) == MetadataHeading || KindOf(line) == OtherHeading
    ensures IsOperational(line) <==> KindOf(line) == Operational
  {
    if IsFence(line) {
      FenceStart(line);
    }
    if IsHeading(line) {
      HeadingStart(line);
    }
    if IsOperational(line) {
      OperationalStart(line);
    }
  }

  // ---------------------------------------------------------------------
  // Which lines are dropped, by position

  function FencesBefore(ks: seq<Kind>, n: nat): nat
    requires n <= |ks|
  {
    if n == 0 then 0 else FencesBefore(ks, n - 1) + if ks[n - 1] == Fence then 1 else 0
  }

  /** An odd number of fence lines up to and including this one. */
  predicate Fenced(ks: seq<Kind>, i: nat)
    requires i < |ks|
  {
    FencesBefore(ks, i + 1) % 2 == 1
  }

  predicate OpensSection(ks: seq<Kind>, i: nat)
    requires i < |ks|
  {
    (ks[i] == MetadataHeading || ks[i] == OtherHeading) && !Fenced(ks, i)
  }

  /** The last unfenced heading among the first `n` lines is the Metadata one. */
  predicate UnderMetadata(ks: seq<Kind>, n: nat)
    requires n <= |ks|
  {
    exists h :: 0 <= h < n && MetadataOpenedAt(ks, h, n)
  }

  predicate MetadataOpenedAt(ks: seq<Kind>, h: nat, n: nat)
    requires h < n <= |ks|
  {
    OpensSection(ks, h) && ks[h] == MetadataHeading && forall k :: h < k < n ==> !OpensSection(ks, k)
  }

  predicate Dropped(ks: seq<Kind>, i: nat)
    requires i < |ks|
  {
    ks[i] == Operational && !Fenced(ks, i) && UnderMetadata(ks, i)
  }

  function TrimBlanks(line: string): string {
    if line != "" && (line[|line| - 1] == ' ' || line[|line| - 1] == '\t') then TrimBlanks(line[..|line| - 1]) else line
  }

  /** The kept ones of the first `n` lines, without trailing blanks. */
  function Kept(lines: seq<string>, ks: seq<Kind>, n: nat): seq<string>
    requires n <= |lines| == |ks|
  {
    if n == 0 then []
    else if Dropped(ks, n - 1) then Kept(lines, ks, n - 1)
    else Kept(lines, ks, n - 1) + [TrimBlanks(lines[n - 1])]
  }

  function DropBlankTail(lines: seq<string>): seq<string> {
    if lines != [] && lines[|lines| - 1] == "" then DropBlankTail(lines[..|lines| - 1]) else lines
  }

  function ContractLines(lines: seq<string>): seq<string> {
    DropBlankTail(Kept(lines, Kinds(lines), |lines|))
  }

  function Contract(content: string): string {
    JoinLines(ContractLines(SplitLines(content)))
  }

  // ---------------------------------------------------------------------
  // The scanner

  datatype State = State(inMetadata: bool, inFence: bool)

  function Step(s: State, k: Kind): State {
    match k
    case Fence => s.(inFence := !s.inFence)
    case MetadataHeading => if s.inFence then s else s.(inMetadata := true)
    case OtherHeading => if s.inFence then s else s.(inMetadata := false)
    case _ => s
  }

  function StateAfter(ks: seq<Kind>, n: nat): State
    requires n <= |ks|
  {
    if n == 0 then State(false, false) else Step(StateAfter(ks, n - 1), ks[n - 1])
  }

  /** The scanner's two flags, in terms of positions. */
  lemma {:induction false} StateMeans(ks: seq<Kind>, n: nat)
    requires n <= |ks|
    ensures StateAfter(ks, n).inFence <==> FencesBefore(ks, n) % 2 == 1
    ensures StateAfter(ks, n).inMetadata <==> UnderMetadata(ks, n)
  {
    if n > 0 {
      StateMeans(ks, n - 1);
      if OpensSection(ks, n - 1) {
        if ks[n - 1] == MetadataHeading {
          assert MetadataOpenedAt(ks, n - 1, n);
        }
      } else {
        SectionGoesOn(ks, n - 1);
      }
    }
  }

  lemma {:induction false} SectionGoesOn(ks: seq<Kind>, n: nat)
    requires n < |ks| && !OpensSection(ks, n)
    ensures UnderMetadata(ks, n) <==> UnderMetadata(ks, n + 1)
  {
    if UnderMetadata(ks, n) {
      var h :| 0 <= h < n && MetadataOpenedAt(ks, h, n);
      assert MetadataOpenedAt(ks, h, n + 1);
    }
    if UnderMetadata(ks, n + 1) {
      var h :| 0 <= h < n + 1 && MetadataOpenedAt(ks, h, n + 1);
      assert h != n && MetadataOpenedAt(ks, h, n);
    }
  }

  lemma {:induction false} DroppedByState(ks: seq<Kind>, i: nat)
    requires i < |ks|
    ensures Dropped(ks, i) <==> ks[i] == Operational && StateAfter(ks, i) == State(true, false)
  {
    StateMeans(ks, i);
  }

  /** The two flags and the fate of a line, as the loop computes them. */
  lemma {:induction false} ScanStep(lines: seq<string>, i: nat, inMetadata: bool, inFence: bool)
    requires i < |lines| && StateAfter(Kinds(lines), i) == State(inMetadata, inFence)
    ensures
      var line, ks := lines[i], Kinds(lines);
      var fenced := if IsFence(line) then !inFence else inFence;
      && StateAfter(ks, i + 1) == State(
           if !fenced && IsMetadataHeading(line) then true
           else if !fenced && IsHeading(line) then false else inMetadata, fenced)
      && (Dropped(ks, i) <==> !fenced && inMetadata && !IsHeading(line) && IsOperational(line))
      && (IsMetadataHeading(line) ==> IsHeading(line))
  {
    KindsAreExclusive(lines[i]);
    DroppedByState(Kinds(lines), i);
  }

  method KeepLines(lines: seq<string>) returns (kept: seq<string>)
    ensures kept == Kept(lines, Kinds(lines), |lines|)
  {
    ghost var ks := Kinds(lines);
    kept := [];
    var inMetadata, inFence := false, false;
    for i := 0 to |lines|
      invariant StateAfter(ks, i) == State(inMetadata, inFence)
      invariant kept == Kept(lines, ks, i)
    {
      var line := lines[i];
      ScanStep(lines, i, inMetadata, inFence);
      if IsFence(line) {
        inFence := !inFence;
      }
      if !inFence && IsMetadataHeading(line) {
        inMetadata := true;
        kept := kept + [TrimBlanks(line)];
        continue;
      }
      if !inFence && inMetadata && IsHeading(line) {
        inMetadata := false;
      }
      if !inFence && inMetadata && IsOperational(line) {
        continue;
      }
      kept := kept + [TrimBlanks(line)];
    }
  }

  method ExtractContract(content: string) returns (contract: string)
    ensures contract == Contract(content)
  {
    var kept := KeepLines(SplitLines(content));
    ghost var all := kept;
    while |kept| > 0 && kept[|kept| - 1] == ""
      invariant DropBlankTail(kept) == DropBlankTail(all)
    {
      kept := kept[..|kept| - 1];
    }
    contract := JoinLines(kept);
  }

  // ---------------------------------------------------------------------
  // Bookkeeping does not move the contract

  lemma {:induction false} StateOfPrefix(ks: seq<Kind>, ks': seq<Kind>, n: nat)
    requires n <= |ks| && n <= |ks'| && ks[..n] == ks'[..n]
    ensures StateAfter(ks, n) == StateAfter(ks', n)
  {
    if n > 0 {
      assert ks[..n - 1] == ks[..n][..n - 1] && ks'[..n - 1] == ks'[..n][..n - 1];
      assert ks[n - 1] == ks[..n][n - 1] && ks'[n - 1] == ks'[..n][n - 1];
      StateOfPrefix(ks, ks', n - 1);
    }
  }

  lemma {:induction false} KeptOfPrefix(lines: seq<string>, ks: seq<Kind>, lines': seq<string>, ks': seq<Kind>, n: nat)
    requires n <= |lines| == |ks| && n <= |lines'| == |ks'|
    requires lines[..n] == lines'[..n] && ks[..n] == ks'[..n]
    ensures Kept(lines, ks, n) == Kept(lines', ks', n)
  {
    if n > 0 {
      assert ks[..n - 1] == ks[..n][..n - 1] && ks'[..n - 1] == ks'[..n][..n - 1];
      assert lines[..n - 1] == lines[..n][..n - 1] && lines'[..n - 1] == lines'[..n][..n - 1];
      assert ks[n - 1] == ks[..n][n - 1] && ks'[n - 1] == ks'[..n][n - 1];
      assert lines[n - 1] == lines[..n][n - 1] && lines'[n - 1] == lines'[..n][n - 1];
      KeptOfPrefix(lines, ks, lines', ks', n - 1);
      StateOfPrefix(ks, ks', n - 1);
      DroppedByState(ks, n - 1);
      DroppedByState(ks', n - 1);
    }
  }

  /** Past an operational line the scanner goes on as if it were not there. */
  lemma {:induction false} StatePastOperational(a: seq<Kind>, b: seq<Kind>, j: nat)
    requires j <= |b|
    ensures StateAfter(a + [Operational] + b, |a| + 1 + j) == StateAfter(a + b, |a| + j)
  {
    var with, without := a + [Operational] + b, a + b;
    if j == 0 {
      assert with[..|a|] == a == without[..|a|];
      StateOfPrefix(with, without, |a|);
    } else {
      StatePastOperational(a, b, j - 1);
      assert with[|a| + j] == b[j - 1] == without[|a| + j - 1];
    }
  }

  lemma {:induction false} KeptPastDropped(a: seq<string>, x: string, b: seq<string>,
                                           ka: seq<Kind>, kb: seq<Kind>, j: nat)
    requires |ka| == |a| && |kb| == |b| && j <= |b|
    requires StateAfter(ka, |a|) == State(true, false)
    ensures Kept(a + [x] + b, ka + [Operational] + kb, |a| + 1 + j) == Kept(a + b, ka + kb, |a| + j)
  {
    var lines, lines' := a + [x] + b, a + b;
    var ks, ks' := ka + [Operational] + kb, ka + kb;
    if j == 0 {
      assert ks[..|a|] == ka == ks'[..|a|] && lines[..|a|] == a == lines'[..|a|];
      KeptOfPrefix(lines, ks, lines', ks', |a|);
      assert ka[..|a|] == ka;
      StateOfPrefix(ks, ka, |a|);
      DroppedByState(ks, |a|);
    } else {
      KeptPastDropped(a, x, b, ka, kb, j - 1);
      SameFatePastDropped(a, x, b, ka, kb, j - 1);
    }
  }

  /** A later line is what it was, and is dropped or kept as it was. */
  lemma {:induction false} SameFatePastDropped(a: seq<string>, x: string, b: seq<string>,
                                               ka: seq<Kind>, kb: seq<Kind>, j: nat)
    requires |ka| == |a| && |kb| == |b| && j < |b|
    ensures (a + [x] + b)[|a| + 1 + j] == b[j] == (a + b)[|a| + j]
    ensures Dropped(ka + [Operational] + kb, |a| + 1 + j) <==> Dropped(ka + kb, |a| + j)
  {
    var ks, ks' := ka + [Operational] + kb, ka + kb;
    StatePastOperational(ka, kb, j);
    assert ks[|a| + 1 + j] == kb[j] == ks'[|a| + j];
    DroppedByState(ks, |a| + 1 + j);
    DroppedByState(ks', |a| + j);
  }

  /** After these lines, the scanner is in the Metadata section, outside fences. */
  predicate EndsInMetadata(lines: seq<string>) {
    FencesBefore(Kinds(lines), |lines|) % 2 == 0 && UnderMetadata(Kinds(lines), |lines|)
  }

  lemma {:induction false} KindsAround(a: seq<string>, x: string, b: seq<string>, k: Kind)
    requires KindOf(x) == k
    ensures Kinds(a + [x] + b) == Kinds(a) + [k] + Kinds(b)
    ensures Kinds(a + b) == Kinds(a) + Kinds(b)
  {
  }

  lemma {:induction false} KeptWithout(a: seq<string>, x: string, b: seq<string>, ka: seq<Kind>, kb: seq<Kind>)
    requires |ka| == |a| && |kb| == |b| && FencesBefore(ka, |ka|) % 2 == 0 && UnderMetadata(ka, |ka|)
    ensures Kept(a + [x] + b, ka + [Operational] + kb, |a + [x] + b|) == Kept(a + b, ka + kb, |a + b|)
  {
    StateMeans(ka, |a|);
    KeptPastDropped(a, x, b, ka, kb, |b|);
  }

  /** Adding or deleting an operational line in the Metadata section. */
  lemma {:induction false} OperationalLineIsNeutral(a: seq<string>, x: string, b: seq<string>)
    requires EndsInMetadata(a) && KindOf(x) == Operational
    ensures ContractLines(a + [x] + b) == ContractLines(a + b)
  {
    KeptWithout(a, x, b, Kinds(a), Kinds(b));
    KindsAround(a, x, b, Operational);
  }

  /** One bookkeeping write: an operational line of the Metadata section is
      added, deleted or rewritten. */
  ghost predicate BookkeepingWrite(before: seq<string>, after: seq<string>) {
    exists a, x, y, b ::
      EndsInMetadata(a) && Operationals(x) && Operationals(y) && before == a + x + b && after == a + y + b
  }

  /** At most one line, and that one operational. */
  predicate Operationals(x: seq<string>) {
    x == [] || (|x| == 1 && IsOperational(x[0]))
  }

  lemma {:induction false} BookkeepingKeepsContract(before: seq<string>, after: seq<string>)
    requires BookkeepingWrite(before, after)
    ensures ContractLines(before) == ContractLines(after)
  {
    var a, x, y, b :|
      EndsInMetadata(a) && Operationals(x) && Operationals(y) && before == a + x + b && after == a + y + b;
    OperationalsAreNeutral(a, x, b);
    OperationalsAreNeutral(a, y, b);
  }

  lemma {:induction false} OperationalsAreNeutral(a: seq<string>, x: seq<string>, b: seq<string>)
    requires EndsInMetadata(a) && Operationals(x)
    ensures ContractLines(a + x + b) == ContractLines(a + b)
  {
    if x == [] {
      assert a + x + b == a + b;
    } else {
      assert x == [x[0]];
      KindsAreExclusive(x[0]);
      OperationalLineIsNeutral(a, x[0], b);
    }
  }

  /** A history of bookkeeping writes. */
  ghost predicate BookkeepingHistory(versions: seq<seq<string>>) {
    versions != [] && forall i :: 0 <= i < |versions| - 1 ==> BookkeepingWrite(versions[i], versions[i + 1])
  }

  lemma {:induction false} HistoryKeepsContract(versions: seq<seq<string>>, n: nat)
    requires BookkeepingHistory(versions) && n < |versions|
    ensures ContractLines(versions[0]) == ContractLines(versions[n])
  {
    if n > 0 {
      HistoryKeepsContract(versions, n - 1);
      BookkeepingKeepsContract(versions[n - 1], versions[n]);
    }
  }

  // ---------------------------------------------------------------------
  // Everything else does

  lemma {:induction false} DropBlankTailMeans(lines: seq<string>)
    ensures DropBlankTail(lines) <= lines
    ensures forall k :: |DropBlankTail(lines)| <= k < |lines| ==> lines[k] == ""
    ensures DropBlankTail(lines) == [] || DropBlankTail(lines)[|DropBlankTail(lines)| - 1] != ""
  {
    if lines != [] && lines[|lines| - 1] == "" {
      var rest := lines[..|lines| - 1];
      DropBlankTailMeans(rest);
      assert forall k :: 0 <= k < |rest| ==> rest[k] == lines[k];
    }
  }

  lemma {:induction false} SameLengthSameTail(a: seq<string>, b: seq<string>)
    requires |a| == |b| && DropBlankTail(a) == DropBlankTail(b)
    ensures a == b
  {
    DropBlankTailMeans(a);
    DropBlankTailMeans(b);
    var d := DropBlankTail(a);
    forall k | 0 <= k < |a| ensures a[k] == b[k] {
      if k < |d| {
        assert a[k] == d[k] == b[k];
      }
    }
  }

  predicate NoLf(lines: seq<string>) {
    forall k :: 0 <= k < |lines| ==> '\n' !in lines[k]
  }

  lemma {:induction false} JoinStart(lines: seq<string>)
    requires lines != [] && NoLf(lines)
    ensures var s := JoinLines(lines);
            FirstLf(s) == |lines[0]| && s[..|lines[0]|] == lines[0] && (|lines| == 1 <==> |s| == |lines[0]|)
  {
    var s := JoinLines(lines);
    var n := |lines[0]|;
    FirstLfIsFirst(s);
    assert forall k :: 0 <= k < n ==> s[k] == lines[0][k];
    if |lines| > 1 {
      assert s[n] == '\n';
      FirstLfIs(s, n);
    } else {
      FirstLfIs(s, n);
    }
  }

  /** Joining loses nothing of lines that hold no LF and do not end in blank ones. */
  lemma {:induction false} JoinIsInjective(a: seq<string>, b: seq<string>)
    requires NoLf(a) && NoLf(b) && JoinLines(a) == JoinLines(b)
    requires a == [] || a[|a| - 1] != ""
    requires b == [] || b[|b| - 1] != ""
    ensures a == b
  {
    if a != [] {
      JoinStart(a);
    }
    if b != [] {
      JoinStart(b);
    }
    if a != [] && b != [] {
      var s := JoinLines(a);
      assert a[0] == b[0];
      if |a| > 1 {
        var n := |a[0]|;
        assert s[n + 1..] == JoinLines(a[1..]);
        assert s[n + 1..] == JoinLines(b[1..]);
        JoinIsInjective(a[1..], b[1..]);
        assert a == [a[0]] + a[1..] && b == [b[0]] + b[1..];
      } else {
        assert a == [a[0]] && b == [b[0]];
      }
    }
  }

  lemma {:induction false} SplitHasNoLf(s: string)
    ensures NoLf(SplitLines(s))
    decreases |s|
  {
    var n := FirstLf(s);
    FirstLfIsFirst(s);
    if n < |s| {
      SplitHasNoLf(s[n + 1..]);
    }
  }

  lemma {:induction false} TrimBlanksMeans(line: string)
    ensures TrimBlanks(line) <= line
  {
    if line != "" && (line[|line| - 1] == ' ' || line[|line| - 1] == '\t') {
      TrimBlanksMeans(line[..|line| - 1]);
    }
  }

  lemma {:induction false} KeptHasNoLf(lines: seq<string>, ks: seq<Kind>, n: nat)
    requires n <= |lines| == |ks| && NoLf(lines)
    ensures NoLf(Kept(lines, ks, n))
  {
    if n > 0 {
      KeptHasNoLf(lines, ks, n - 1);
      TrimBlanksMeans(lines[n - 1]);
    }
  }

  lemma {:induction false} ContractLinesShape(content: string)
    ensures var c := ContractLines(SplitLines(content)); NoLf(c) && (c == [] || c[|c| - 1] != "")
  {
    var lines := SplitLines(content);
    var kept := Kept(lines, Kinds(lines), |lines|);
    SplitHasNoLf(content);
    KeptHasNoLf(lines, Kinds(lines), |lines|);
    DropBlankTailMeans(kept);
  }

  /** Contracts are equal exactly when their kept lines are, up to blanks at line
      ends and blank lines at the end. */
  lemma {:induction false} ContractsEqualExactly(content: string, content': string)
    ensures Contract(content) == Contract(content') <==>
            ContractLines(SplitLines(content)) == ContractLines(SplitLines(content'))
  {
    ContractLinesShape(content);
    ContractLinesShape(content');
    if Contract(content) == Contract(content') {
      JoinIsInjective(ContractLines(SplitLines(content)), ContractLines(SplitLines(content')));
    }
  }

  lemma {:induction false} KeptAt(lines: seq<string>, ks: seq<Kind>, i: nat, n: nat)
    requires i < n <= |lines| == |ks| && !Dropped(ks, i)
    ensures |Kept(lines, ks, i)| < |Kept(lines, ks, n)|
    ensures Kept(lines, ks, n)[|Kept(lines, ks, i)|] == TrimBlanks(lines[i])
  {
    if i < n - 1 {
      KeptAt(lines, ks, i, n - 1);
    }
  }

  /** The two kinds move the scanner alike. */
  predicate StepsAlike(k: Kind, k': Kind) {
    k == k' || ((k == Operational || k == Plain) && (k' == Operational || k' == Plain))
  }

  lemma {:induction false} SameStates(ks: seq<Kind>, i: nat, k: Kind, n: nat)
    requires i < |ks| && StepsAlike(ks[i], k) && n <= |ks|
    ensures StateAfter(ks[i := k], n) == StateAfter(ks, n)
  {
    if n > 0 {
      SameStates(ks, i, k, n - 1);
    }
  }

  /** Where the line at `i` is kept before and after, as many lines are. */
  lemma {:induction false} AsManyKept(lines: seq<string>, i: nat, x: string, ks: seq<Kind>, k: Kind, n: nat)
    requires i < |lines| == |ks| && n <= |lines|
    requires StepsAlike(ks[i], k) && !Dropped(ks, i) && !Dropped(ks[i := k], i)
    ensures |Kept(lines[i := x], ks[i := k], n)| == |Kept(lines, ks, n)|
  {
    if n > 0 {
      AsManyKept(lines, i, x, ks, k, n - 1);
      SameStates(ks, i, k, n - 1);
      DroppedByState(ks, n - 1);
      DroppedByState(ks[i := k], n - 1);
    }
  }

  /** The kept line at `i` is rewritten into another kept one, beyond its trailing
      blanks.  A line shaped like bookkeeping outside the Metadata section, or
      inside a fence, is no exception. */
  predicate MaterialRewrite(before: seq<string>, after: seq<string>, i: nat) {
    i < |before| == |after| && after == before[i := after[i]] &&
    StepsAlike(KindOf(before[i]), KindOf(after[i])) &&
    !Dropped(Kinds(before), i) && !Dropped(Kinds(after), i) &&
    TrimBlanks(after[i]) != TrimBlanks(before[i])
  }

  lemma {:induction false} AmendmentMovesContract(before: seq<string>, after: seq<string>, i: nat)
    requires MaterialRewrite(before, after, i)
    ensures ContractLines(after) != ContractLines(before)
  {
    var ks, k := Kinds(before), KindOf(after[i]);
    assert Kinds(after) == ks[i := k];
    var kept, kept' := Kept(before, ks, |before|), Kept(after, ks[i := k], |before|);
    AsManyKept(before, i, after[i], ks, k, |before|);
    AsManyKept(before, i, after[i], ks, k, i);
    KeptAt(before, ks, i, |before|);
    KeptAt(after, ks[i := k], i, |before|);
    if DropBlankTail(kept) == DropBlankTail(kept') {
      SameLengthSameTail(kept, kept');
    }
  }

  // ---------------------------------------------------------------------
  // Line endings

  /** Neither line ending moves a contract: turning every line end into CRLF leaves
      it if there is none yet, turning CRLF into LF if no line ends in two carriage
      returns, and so does the way back. */
  lemma {:induction false} LineEndingsKeepContract(content: string)
    ensures !UsesCrlf(content) ==> Contract(ToCrlf(content)) == Contract(content)
    ensures !Contains(content, "\r\r\n") ==> Contract(ToLf(content)) == Contract(content)
    ensures Contract(ToLf(ToCrlf(content))) == Contract(content)
  {
    CrlfSplitsAlike(content);
    LfSplitsAlike(content);
    LfAfterCrlf(content);
  }
}
