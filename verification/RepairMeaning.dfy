/** What the repair guard's verdicts mean, told from the shapes of the lines alone:
    which lines it takes for headings, titles, bullets and placeholders, which
    changes it accepts, and what it says about the others. */
module RepairMeaning {
  import opened Alignment
  import opened Base
  import opened RepairGuard
  import opened Text
  import opened Words

  // ---------------------------------------------------------------------
  // The shape of one line

  /** `t` is `- **name:**` and anything after it. */
  ghost predicate BulletOf(t: string, name: string) {
    name != "" && ':' !in name && '*' !in name &&
    exists gap, rest :: AllSpace(gap) && t == "-" + gap + "**" + name + ":**" + rest
  }

  lemma {:induction false} FieldEndIs(s: string, i: nat, e: nat)
    requires i <= e <= |s|
    ensures FieldEnd(s, i) == e <==>
            (forall k :: i <= k < e ==> s[k] != ':' && s[k] != '*') && (e < |s| ==> s[e] == ':' || s[e] == '*')
    decreases |s| - i
  {
    if i < |s| && s[i] != ':' && s[i] != '*' && i < e {
      FieldEndIs(s, i + 1, e);
    }
  }

  lemma {:induction false} BulletIsRead(t: string, gap: string, name: string, rest: string)
    requires AllSpace(gap) && name != "" && ':' !in name && '*' !in name
    requires t == "-" + gap + "**" + name + ":**" + rest
    ensures MetaField(t) == Some(Lower(Trim(name)))
  {
    var bullet := "**" + name + ":**" + rest;
    assert t[1..] == gap + bullet;
    TrimStartDrops(gap, bullet);
    var e := 2 + |name|;
    assert bullet[e] == ':' && bullet[2..e] == name;
    FieldEndIs(bullet, 2, e);
    assert bullet[e..] == ":**" + rest;
  }

  lemma {:induction false} BulletSplits(bullet: string, e: nat)
    requires 2 < e <= |bullet| && StartsWith(bullet, "**") && StartsWith(bullet[e..], ":**")
    ensures bullet == "**" + bullet[2..e] + ":**" + bullet[e + 3..]
  {
    assert bullet[e..] == ":**" + bullet[e + 3..];
    assert bullet == bullet[..2] + bullet[2..e] + bullet[e..];
  }

  lemma {:induction false} BulletIs(t: string, gap: string, name: string, rest: string, bullet: string)
    requires AllSpace(gap) && name != "" && ':' !in name && '*' !in name
    requires bullet == "**" + name + ":**" + rest && t == "-" + gap + bullet
    ensures BulletOf(t, name)
  {
    assert t == "-" + gap + "**" + name + ":**" + rest;
  }

  lemma {:induction false} PartsAreBullet(t: string, gap: string, b: string, e: nat)
    requires StartsWith(t, "-") && t[1..] == gap + b && AllSpace(gap)
    requires 2 < e <= |b| && StartsWith(b, "**") && StartsWith(b[e..], ":**") && e == FieldEnd(b, 2)
    ensures BulletOf(t, b[2..e])
  {
    FieldEndIs(b, 2, e);
    BulletSplits(b, e);
    assert t == "-" + t[1..];
    assert t == "-" + gap + b;
    BulletIs(t, gap, b[2..e], b[e + 3..], b);
  }

  lemma {:induction false} ReadIsBullet(t: string) returns (name: string)
    requires MetaField(t).Some?
    ensures BulletOf(t, name) && MetaField(t).value == Lower(Trim(name))
  {
    var gap := TrimStartSplits(t[1..]);
    var b := TrimStart(t[1..]);
    var e := FieldEnd(b, 2);
    name := b[2..e];
    PartsAreBullet(t, gap, b, e);
  }

  /** The bullet names the field, in any letter case. */
  ghost predicate NamesField(t: string, field: string) {
    SmallLetters(field) && exists name :: BulletOf(t, name) && SameButCase(Trim(name), field)
  }

  /** A trimmed line is a bullet of a field exactly when it has the bullet's shape. */
  lemma {:induction false} FieldExactly(t: string, field: string)
    ensures MetaField(t) == Some(field) <==> NamesField(t, field)
  {
    if MetaField(t) == Some(field) {
      var name := ReadIsBullet(t);
      LowerExactly(Trim(name), field);
    }
    forall name | BulletOf(t, name) ensures MetaField(t) == Some(field) <==> SmallLetters(field) && SameButCase(Trim(name), field) {
      LowerExactly(Trim(name), field);
      var gap, rest :| AllSpace(gap) && t == "-" + gap + "**" + name + ":**" + rest;
      BulletIsRead(t, gap, name, rest);
    }
  }

  lemma {:induction false} BulletStarts(t: string, name: string)
    requires BulletOf(t, name)
    ensures t != "" && t[0] == '-'
  {
    var gap, rest :| AllSpace(gap) && t == "-" + gap + "**" + name + ":**" + rest;
  }

  /** What a line is, by its trimmed text. */
  lemma {:induction false} LineShapes(line: string, field: string)
    ensures
      var t, c := Trim(line), ClassifyLine(line);
      && (c == Blank <==> AllSpace(line))
      && (c == H1 <==> StartsWith(t, "# "))
      && (c.Heading? <==> StartsWith(t, "## "))
      && (c == Meta(field) <==> NamesField(t, field))
  {
    var t := Trim(line);
    FieldExactly(t, field);
    BlankExactly(line);
    if MetaField(t).Some? {
      FieldExactly(t, MetaField(t).value);
    }
    forall name | BulletOf(t, name) ensures t != "" && t[0] == '-' {
      BulletStarts(t, name);
    }
    assert StartsWith(t, "## ") ==> t[1] == '#';
    assert StartsWith(t, "# ") ==> t[1] == ' ';
  }

  lemma {:induction false} BlankExactly(line: string)
    ensures Trim(line) == "" <==> AllSpace(line)
  {
    var before := TrimStartSplits(line);
    var after := TrimEndSplits(TrimStart(line));
    if AllSpace(line) {
      TrimStartDrops(line, "");
      assert line + "" == line;
    }
  }

  // ---------------------------------------------------------------------
  // Titles and the names of headings

  /** The same words in the same order, whatever stands between them and whatever
      the case of their letters. */
  predicate SameTitle(a: string, b: string) {
    SameWords(WordsOf(LetterOrDigit, a), WordsOf(LetterOrDigit, b))
  }

  lemma {:induction false} PunctuationIsCollapsed(s: string)
    ensures CollapsePunctuation(s) == Collapse(IsAlphanumeric, s)
  {
    if s != "" {
      PunctuationIsCollapsed(s[1..]);
    }
  }

  lemma {:induction false} SpacesAreCollapsed(s: string)
    ensures CollapseSpaces(s) == Collapse(Ink, s)
  {
    if s != "" {
      SpacesAreCollapsed(s[1..]);
    }
  }

  predicate NoWords(s: string) {
    forall k :: 0 <= k < |s| ==> !LetterOrDigit(s[k])
  }

  lemma {:induction false} SpaceHasNoWords(s: string)
    requires AllSpace(s)
    ensures NoWords(s)
  {
  }

  lemma {:induction false} StrippedTitle(line: string, before: string, between: string)
    requires AllSpace(before) && AllSpace(between)
    requires StartsWith(TrimStart(line), "#") && line == before + TrimStart(line)
    requires TrimStart(line)[1..] == between + TrimStart(TrimStart(line)[1..])
    ensures
      var pre, title := before + "#" + between, TrimStart(TrimStart(line)[1..]);
      line == pre + title && NoWords(pre)
  {
    var t := TrimStart(line);
    assert t == "#" + t[1..];
    SpaceHasNoWords(before);
    SpaceHasNoWords(between);
  }

  /** What is stripped before the title holds no letter and no digit. */
  lemma {:induction false} TitleStart(line: string) returns (pre: string, title: string)
    ensures line == pre + title && NoWords(pre)
    ensures CanonicalH1(line) == Trim(CollapsePunctuation(Lower(title)))
  {
    pre, title := "", line;
    var t := TrimStart(line);
    if StartsWith(t, "#") {
      var before := TrimStartSplits(line);
      var between := TrimStartSplits(t[1..]);
      StrippedTitle(line, before, between);
      pre, title := before + "#" + between, TrimStart(t[1..]);
    }
  }

  lemma {:induction false} CanonicalIsWords(line: string)
    ensures CanonicalH1(line) == Joined(Lowered(WordsOf(LetterOrDigit, line)))
    ensures AllSolid(Lowered(WordsOf(LetterOrDigit, line)))
  {
    var pre, title := TitleStart(line);
    WordsAfter(LetterOrDigit, pre, title);
    LowerWords(LetterOrDigit, IsAlphanumeric, title, 0);
    PunctuationIsCollapsed(Lower(title));
    CollapsedIsWords(IsAlphanumeric, Lower(title));
  }

  /** Two titles count as the same exactly when they have the same words. */
  lemma {:induction false} SameTitleExactly(a: string, b: string)
    ensures CanonicalH1(a) == CanonicalH1(b) <==> SameTitle(a, b)
  {
    CanonicalIsWords(a);
    CanonicalIsWords(b);
    SameWordsExactly(WordsOf(LetterOrDigit, a), WordsOf(LetterOrDigit, b));
    if CanonicalH1(a) == CanonicalH1(b) {
      JoinedDetermines(Lowered(WordsOf(LetterOrDigit, a)), Lowered(WordsOf(LetterOrDigit, b)));
    }
  }

  /** Where a parenthesis, a colon or a dash qualifies the name of a heading. */
  function QualifierAt(s: string): (n: nat)
    ensures n <= |s|
  {
    if s == "" || s[0] == '(' || s[0] == ':' || s[0] == '-' then 0 else 1 + QualifierAt(s[1..])
  }

  /** The words of a heading up to its qualifier. */
  function NameWords(raw: string): seq<string> {
    WordsOf(Ink, raw[..QualifierAt(raw)])
  }

  lemma {:induction false} CutIsPrefix(s: string)
    ensures BeforeQualifier(s) == s[..QualifierAt(s)]
  {
    if s != "" && !StartsQualifier(s[0]) {
      CutIsPrefix(s[1..]);
    }
  }

  lemma {:induction false} LowerKeepsQualifier(s: string)
    ensures QualifierAt(Lower(s)) == QualifierAt(s)
    ensures Lower(s)[..QualifierAt(s)] == Lower(s[..QualifierAt(s)])
  {
    if s != "" {
      assert Lower(s)[1..] == Lower(s[1..]);
      LowerKeepsQualifier(s[1..]);
    }
  }

  /** Cutting at the qualifier and collapsing spaces can be exchanged. */
  lemma {:induction false} CutAndCollapse(s: string)
    ensures BeforeQualifier(CollapseSpaces(s)) == CollapseSpaces(BeforeQualifier(s))
  {
    if s != "" && !StartsQualifier(s[0]) {
      CutAndCollapse(s[1..]);
      var b := BeforeQualifier(s[1..]);
      assert b != "" ==> b[0] == s[1];
      assert ([s[0]] + b)[1..] == b;
      var c := CollapseSpaces(s[1..]);
      assert ([s[0]] + c)[1..] == c && (" " + c)[1..] == c;
    }
  }

  lemma {:induction false} QualifierAfterSpace(before: string, s: string)
    requires AllSpace(before)
    ensures BeforeQualifier(before + s) == before + BeforeQualifier(s)
  {
    if before == "" {
      assert before + s == s;
    } else {
      assert (before + s)[1..] == before[1..] + s;
      QualifierAfterSpace(before[1..], s);
    }
  }

  lemma {:induction false} QualifierBeforeSpace(s: string, after: string)
    requires AllSpace(after)
    ensures BeforeQualifier(s + after) == BeforeQualifier(s) || BeforeQualifier(s + after) == BeforeQualifier(s) + after
  {
    if s == "" {
      QualifierAfterSpace(after, "");
      assert s + after == after + "";
    } else {
      assert (s + after)[1..] == s[1..] + after;
      QualifierBeforeSpace(s[1..], after);
    }
  }

  /** Blanks around a heading are in none of its words. */
  lemma {:induction false} NameWordsOfTrimmed(raw: string)
    ensures WordsOf(Ink, BeforeQualifier(raw)) == WordsOf(Ink, BeforeQualifier(Trim(raw)))
  {
    var before := TrimStartSplits(raw);
    var s := TrimStart(raw);
    var after := TrimEndSplits(s);
    QualifierAfterSpace(before, s);
    WordsAfter(Ink, before, BeforeQualifier(s));
    QualifierBeforeSpace(TrimEnd(s), after);
    WordsOfPrefix(Ink, BeforeQualifier(TrimEnd(s)), after, 0);
  }

  lemma {:induction false} NameIsWords(raw: string)
    ensures NormalizeHeadingName(raw) == Joined(Lowered(NameWords(raw))) && AllSolid(Lowered(NameWords(raw)))
  {
    var t := Trim(raw);
    var cut := BeforeQualifier(t);
    CutAndCollapse(Lower(t));
    CutIsPrefix(Lower(t));
    LowerKeepsQualifier(t);
    CutIsPrefix(t);
    assert BeforeQualifier(Lower(t)) == Lower(cut);
    SpacesAreCollapsed(Lower(cut));
    CollapsedIsWords(Ink, Lower(cut));
    LowerWords(Ink, Ink, cut, 0);
    NameWordsOfTrimmed(raw);
    CutIsPrefix(raw);
  }

  /** The name of a heading is `words` exactly when these are the words before its
      qualifier, whatever their letter case and the blanks between them. */
  lemma {:induction false} HeadingNameExactly(raw: string, words: seq<string>)
    requires AllSolid(words) && forall i :: 0 <= i < |words| ==> SmallLetters(words[i])
    ensures NormalizeHeadingName(raw) == Joined(words) <==> SameWords(NameWords(raw), words)
  {
    NameIsWords(raw);
    SameWordsExactly(NameWords(raw), words);
    forall i | 0 <= i < |words| ensures Lower(words[i]) == words[i] {
      LowerExactly(words[i], words[i]);
    }
    assert Lowered(words) == words;
    if NormalizeHeadingName(raw) == Joined(words) {
      JoinedDetermines(Lowered(NameWords(raw)), words);
    }
  }

  // ---------------------------------------------------------------------
  // Placeholders

  ghost predicate Checkbox(box: string) {
    exists gap, mark, after :: AllSpace(gap) && AllSpace(after) && BoxMark(mark) &&
      box == "-" + gap + ("[" + mark + "]") + after
  }

  predicate BoxMark(mark: string) {
    mark == "" || mark == " " || mark == "x" || mark == "X"
  }

  /** A title or a `TBD` item, with or without a checkbox, that carries the marker. */
  ghost predicate PlaceholderShape(line: string) {
    var t := Trim(line);
    Contains(line, "(repair placeholder)") &&
    ((|t| > 1 && t[0] == '#' && IsSpace(t[1])) || TbdItem(t))
  }

  lemma {:induction false} BoxStarts(mark: string, rest: string)
    requires BoxMark(mark)
    ensures
      var b := "[" + mark + "]" + rest;
      && (StartsWith(b, "[]") <==> mark == "")
      && (mark != "" ==> StartsWith(b, "[ ]") || StartsWith(b, "[x]") || StartsWith(b, "[X]"))
      && b[if mark == "" then 2 else 3..] == rest
  {
    var b := "[" + mark + "]" + rest;
    assert mark != "" ==> b[1] == mark[0] && b[..3] == "[" + mark + "]";
    assert mark == "" ==> b[..2] == "[]";
  }

  lemma {:induction false} BoxIsRead(t: string, gap: string, mark: string, after: string, tail: string)
    requires AllSpace(gap) && AllSpace(after) && BoxMark(mark) && (tail == "" || !IsSpace(tail[0]))
    requires t == "-" + gap + ("[" + mark + "]") + after + tail
    ensures AfterCheckbox(t) == tail
  {
    var b := "[" + mark + "]" + (after + tail);
    BoxStarts(mark, after + tail);
    assert t[1..] == gap + b;
    TrimStartDrops(gap, b);
    TrimStartDrops(after, tail);
  }

  lemma {:induction false} BoxIs(b: string) returns (mark: string)
    requires StartsWith(b, "[]") || StartsWith(b, "[ ]") || StartsWith(b, "[x]") || StartsWith(b, "[X]")
    ensures BoxMark(mark) && b == ("[" + mark + "]") + b[if StartsWith(b, "[]") then 2 else 3..]
  {
    mark := if StartsWith(b, "[]") then "" else [b[1]];
  }

  predicate BoxOpens(b: string) {
    StartsWith(b, "[]") || StartsWith(b, "[ ]") || StartsWith(b, "[x]") || StartsWith(b, "[X]")
  }

  lemma {:induction false} OpenedBox(gap: string, mark: string, after: string, tail: string, b: string)
    requires AllSpace(gap) && AllSpace(after) && BoxMark(mark) && b == ("[" + mark + "]") + (after + tail)
    ensures exists box :: Checkbox(box) && "-" + gap + b == box + tail
  {
    var box := "-" + gap + ("[" + mark + "]") + after;
    assert Checkbox(box);
    assert "-" + gap + b == box + tail;
  }

  lemma {:induction false} AfterBox(t: string, gap: string, b: string)
    requires t == "-" + gap + b && AllSpace(gap) && b == TrimStart(t[1..]) && BoxOpens(b)
    ensures exists box :: Checkbox(box) && t == box + AfterCheckbox(t)
  {
    var mark := BoxIs(b);
    var rest := b[if StartsWith(b, "[]") then 2 else 3..];
    var after := TrimStartSplits(rest);
    OpenedBox(gap, mark, after, TrimStart(rest), b);
    assert AfterCheckbox(t) == TrimStart(rest);
  }

  lemma {:induction false} ReadIsBox(t: string)
    ensures exists box :: (box == "" || Checkbox(box)) && t == box + AfterCheckbox(t)
  {
    if StartsWith(t, "-") && BoxOpens(TrimStart(t[1..])) {
      var gap := TrimStartSplits(t[1..]);
      AfterBox(t, gap, TrimStart(t[1..]));
    } else {
      assert t == "" + AfterCheckbox(t);
    }
  }

  lemma {:induction false} TbdExactly(t: string)
    ensures StartsWithTbd(t) <==> exists rest :: t == "TBD" + rest && (rest == "" || !IsWord(rest[0]))
  {
    if StartsWithTbd(t) {
      assert t == "TBD" + t[3..];
    }
  }

  lemma {:induction false} ShapeIsRead(t: string, box: string, item: string)
    requires (box == "" || Checkbox(box)) && t == box + item && item != "" && item[0] == 'T'
    ensures AfterCheckbox(t) == item
  {
    if box == "" {
      assert t == item;
    } else {
      var gap, mark, after :| AllSpace(gap) && AllSpace(after) && BoxMark(mark) &&
        box == "-" + gap + ("[" + mark + "]") + after;
      BoxIsRead(t, gap, mark, after, item);
    }
  }

  ghost predicate ItemOf(t: string, box: string, rest: string) {
    (box == "" || Checkbox(box)) && t == box + ("TBD" + rest) && (rest == "" || !IsWord(rest[0]))
  }

  ghost predicate TbdItem(t: string) {
    exists box, rest :: ItemOf(t, box, rest)
  }

  lemma {:induction false} TbdItemExactly(t: string)
    ensures StartsWithTbd(AfterCheckbox(t)) <==> TbdItem(t)
  {
    var item := AfterCheckbox(t);
    TbdExactly(item);
    if StartsWithTbd(item) {
      ReadIsBox(t);
      var box :| (box == "" || Checkbox(box)) && t == box + item;
      var rest :| item == "TBD" + rest && (rest == "" || !IsWord(rest[0]));
      assert ItemOf(t, box, rest);
    } else if TbdItem(t) {
      var box, rest :| ItemOf(t, box, rest);
      ShapeIsRead(t, box, "TBD" + rest);
    }
  }

  lemma {:induction false} PlaceholderExactly(line: string)
    ensures IsNarrowPlaceholderLine(line) <==> PlaceholderShape(line)
  {
    TbdItemExactly(Trim(line));
  }

  // ---------------------------------------------------------------------
  // Lines in context

  /** The last heading at or above line `k` is a Metadata heading. */
  ghost predicate InsideOf(c: seq<LineClass>, k: nat)
    requires k < |c|
  {
    exists h :: 0 <= h <= k && c[h] == Heading("metadata") && forall g :: h < g <= k ==> !c[g].Heading?
  }

  function Classes(lines: seq<string>): (c: seq<LineClass>)
    ensures |c| == |lines|
  {
    seq(|lines|, i requires 0 <= i < |lines| => ClassifyLine(lines[i]))
  }

  ghost predicate Inside(lines: seq<string>, k: nat)
    requires k < |lines|
  {
    InsideOf(Classes(lines), k)
  }

  lemma {:induction false} InsideStep(c: seq<LineClass>, k: nat)
    requires k < |c|
    ensures InsideOf(c, k) <==> if c[k].Heading? then c[k] == Heading("metadata") else k > 0 && InsideOf(c, k - 1)
  {
    if !c[k].Heading? && k > 0 && InsideOf(c, k - 1) {
      var h :| 0 <= h <= k - 1 && c[h] == Heading("metadata") && forall g :: h < g <= k - 1 ==> !c[g].Heading?;
      assert forall g :: h < g <= k ==> !c[g].Heading?;
    }
  }

  lemma {:induction false} InsideExactly(lines: seq<string>, k: nat)
    requires k < |lines|
    ensures InMetadata(lines, k) <==> Inside(lines, k)
  {
    InsideStep(Classes(lines), k);
    assert Classes(lines)[k] == ClassifyLine(lines[k]);
    if k > 0 {
      InsideExactly(lines, k - 1);
    }
  }

  predicate EnvelopeField(field: string) {
    field == "priority" || field == "effort" || field == "status"
  }

  predicate NoteField(field: string) {
    field == "priority-note" || field == "effort-note" || field == "status-note" || field == "repaired"
  }

  predicate CanonicalHeading(name: string) {
    name == "metadata" || name == "problem statement" || name == "success criteria" || name == "testing requirements"
  }

  /** Line `k` is a bullet of the field inside the Metadata section. */
  ghost predicate BulletAt(lines: seq<string>, k: int, field: string) {
    0 <= k < |lines| && ClassifyLine(lines[k]) == Meta(field) && Inside(lines, k)
  }

  /** The bullet holds the spec back, or a note of the same field explains it. */
  ghost predicate Accounted(r: seq<string>, k: nat, field: string)
    requires k < |r|
  {
    Contains(r[k], "(repair placeholder)") || exists n :: BulletAt(r, n, field + "-note")
  }

  ghost predicate FirstBullet(r: seq<string>, k: int, field: string) {
    BulletAt(r, k, field) && forall j :: 0 <= j < k ==> !BulletAt(r, j, field)
  }

  ghost predicate TitleAt(lines: seq<string>, k: int) {
    0 <= k < |lines| && ClassifyLine(lines[k]) == H1
  }

  /** What an original line that is gone must have been. */
  ghost predicate Replaceable(o: seq<string>, r: seq<string>, i: nat)
    requires i < |o|
  {
    match ClassifyLine(o[i])
    case H1 => Retitled(r, o[i])
    case Meta(field) => EnvelopeField(field) && Inside(o, i) && Replaced(r, field)
    case _ => false
  }

  ghost predicate Retitled(r: seq<string>, title: string) {
    exists k :: TitleAt(r, k) && SameTitle(r[k], title)
  }

  /** The first bullet of the field is accounted for. */
  ghost predicate Replaced(r: seq<string>, field: string) {
    exists k :: FirstBullet(r, k, field) && Accounted(r, k, field)
  }

  /** What a repaired line that was not there may be. */
  ghost predicate Insertable(o: seq<string>, r: seq<string>, k: nat)
    requires k < |r|
  {
    AllSpace(r[k]) || PlaceholderShape(r[k]) ||
    match ClassifyLine(r[k])
    case Meta(field) => Inside(r, k) && (NoteField(field) || (EnvelopeField(field) && Accounted(r, k, field)))
    case Heading(name) => CanonicalHeading(name) && forall i :: 0 <= i < |o| ==> ClassifyLine(o[i]) != Heading(name)
    case H1 => (forall i :: !TitleAt(o, i)) || Retitled(o, r[k])
    case _ => false
  }

  lemma {:induction false} BulletAtExactly(lines: seq<string>, field: string)
    ensures forall k: nat :: k < |lines| ==> (MetaAt(lines, k, field) <==> BulletAt(lines, k, field))
  {
    forall k: nat | k < |lines| ensures MetaAt(lines, k, field) <==> BulletAt(lines, k, field) {
      InsideExactly(lines, k);
    }
  }

  lemma {:induction false} TitlesExactly(lines: seq<string>, line: string)
    ensures HasH1Like(lines, CanonicalH1(line)) <==> Retitled(lines, line)
  {
    forall k | 0 <= k < |lines| ensures CanonicalH1(lines[k]) == CanonicalH1(line) <==> SameTitle(lines[k], line) {
      SameTitleExactly(lines[k], line);
    }
    if HasH1Like(lines, CanonicalH1(line)) {
      var k :| 0 <= k < |lines| && ClassifyLine(lines[k]) == H1 && CanonicalH1(lines[k]) == CanonicalH1(line);
      assert TitleAt(lines, k);
    }
  }

  lemma {:induction false} NoTitleExactly(lines: seq<string>)
    ensures HasH1(lines) <==> !forall k :: !TitleAt(lines, k)
  {
    if HasH1(lines) {
      var k :| 0 <= k < |lines| && ClassifyLine(lines[k]) == H1;
      assert TitleAt(lines, k);
    }
  }

  lemma {:induction false} NotesExactly(r: seq<string>, field: string)
    ensures HasFieldNote(r, field) <==> exists n :: BulletAt(r, n, field + "-note")
  {
    BulletAtExactly(r, field + "-note");
    if exists n :: BulletAt(r, n, field + "-note") {
      var n :| BulletAt(r, n, field + "-note");
      assert MetaAt(r, n, field + "-note");
    }
  }

  lemma {:induction false} NoneBefore(r: seq<string>, field: string, j: nat, i: nat)
    requires j <= i < |r| && i < FindMeta(r, field, j)
    ensures !MetaAt(r, i, field)
    decreases i - j
  {
    if j < i {
      NoneBefore(r, field, j + 1, i);
    }
  }

  lemma {:induction false} FindMetaExactly(r: seq<string>, field: string)
    ensures FindMeta(r, field, 0) < |r| ==> MetaAt(r, FindMeta(r, field, 0), field)
    ensures forall i :: 0 <= i < FindMeta(r, field, 0) ==> !MetaAt(r, i, field)
  {
    FindMetaFinds(r, field, 0);
    forall i | 0 <= i < FindMeta(r, field, 0) ensures !MetaAt(r, i, field) {
      NoneBefore(r, field, 0, i);
    }
  }

  /** The bullet that is looked at is the first of its field. */
  lemma {:induction false} FirstExactly(r: seq<string>, field: string)
    ensures forall k :: FirstBullet(r, k, field) <==> k == FindMeta(r, field, 0) && k < |r|
  {
    var f := FindMeta(r, field, 0);
    FindMetaExactly(r, field);
    BulletAtExactly(r, field);
    forall k | FirstBullet(r, k, field) ensures k == f {
      assert f < k ==> !BulletAt(r, f, field);
    }
  }

  lemma {:induction false} ReplacedExactly(r: seq<string>, field: string)
    ensures
      var k := FindMeta(r, field, 0);
      Replaced(r, field) <==> k < |r| && (Contains(r[k], MARKER) || HasFieldNote(r, field))
  {
    var k := FindMeta(r, field, 0);
    FirstExactly(r, field);
    NotesExactly(r, field);
    if k < |r| && (Contains(r[k], MARKER) || HasFieldNote(r, field)) {
      assert FirstBullet(r, k, field) && Accounted(r, k, field);
    }
  }

  lemma {:induction false} FieldsExactly(field: string)
    ensures field in ENVELOPE_FIELDS <==> EnvelopeField(field)
    ensures field in NOTE_FIELDS <==> NoteField(field)
    ensures field in INSERTABLE_HEADINGS <==> CanonicalHeading(field)
  {
  }

  lemma {:induction false} ReplaceableExactly(o: seq<string>, r: seq<string>, i: nat)
    requires i < |o|
    ensures OnLost(o, r, i) == [] <==> Replaceable(o, r, i)
  {
    match ClassifyLine(o[i])
    case H1 =>
      TitlesExactly(r, o[i]);
    case Meta(field) =>
      FieldsExactly(field);
      InsideExactly(o, i);
      ReplacedExactly(r, field);
    case _ =>
  }

  lemma {:induction false} BulletMayBeInserted(o: seq<string>, r: seq<string>, k: nat)
    requires k < |r| && ClassifyLine(r[k]).Meta? && !IsNarrowPlaceholderLine(r[k])
    ensures
      var field := ClassifyLine(r[k]).field;
      MayBeInserted(o, r, k) <==> Inside(r, k) && (NoteField(field) || (EnvelopeField(field) && Accounted(r, k, field)))
  {
    var field := ClassifyLine(r[k]).field;
    FieldsExactly(field);
    NotesExactly(r, field);
    InsideExactly(r, k);
  }

  lemma {:induction false} HeadingMayBeInserted(o: seq<string>, r: seq<string>, k: nat)
    requires k < |r| && ClassifyLine(r[k]).Heading? && !IsNarrowPlaceholderLine(r[k])
    ensures
      var name := ClassifyLine(r[k]).name;
      MayBeInserted(o, r, k) <==>
        CanonicalHeading(name) && forall i :: 0 <= i < |o| ==> ClassifyLine(o[i]) != Heading(name)
  {
    FieldsExactly(ClassifyLine(r[k]).name);
  }

  lemma {:induction false} TitleMayBeInserted(o: seq<string>, r: seq<string>, k: nat)
    requires k < |r| && ClassifyLine(r[k]).H1? && !IsNarrowPlaceholderLine(r[k])
    ensures MayBeInserted(o, r, k) <==> (forall i :: !TitleAt(o, i)) || Retitled(o, r[k])
  {
    NoTitleExactly(o);
    TitlesExactly(o, r[k]);
  }

  lemma {:induction false} BlankLineExactly(line: string)
    ensures ClassifyLine(line) == Blank <==> AllSpace(line)
  {
    LineShapes(line, "");
  }

  lemma {:induction false} InsertableExactly(o: seq<string>, r: seq<string>, k: nat)
    requires k < |r|
    ensures MayBeInserted(o, r, k) <==> Insertable(o, r, k)
  {
    PlaceholderExactly(r[k]);
    BlankLineExactly(r[k]);
    if !IsNarrowPlaceholderLine(r[k]) {
      match ClassifyLine(r[k])
      case Meta(field) =>
        BulletMayBeInserted(o, r, k);
      case Heading(name) =>
        HeadingMayBeInserted(o, r, k);
      case H1 =>
        TitleMayBeInserted(o, r, k);
      case _ =>
    }
  }

  /** The guard accepts exactly when every line that its alignment leaves over is, in
      the original, a title or an envelope bullet with an accounted replacement and, in
      the repaired text, one of the insertions that are allowed. */
  lemma {:induction false} GuardAcceptsExactly(o: seq<string>, r: seq<string>)
    ensures
      var m := Greedy(o, r, 0, 0);
      Accepts(o, r) <==>
        (forall i :: 0 <= i < |o| && m[i].None? ==> Replaceable(o, r, i)) &&
        (forall k :: 0 <= k < |r| && Some(k) !in m ==> Insertable(o, r, k))
  {
    AcceptsExactly(o, r);
    forall i | 0 <= i < |o| ensures OnLost(o, r, i) == [] <==> Replaceable(o, r, i) {
      ReplaceableExactly(o, r, i);
    }
    forall k | 0 <= k < |r| ensures MayBeInserted(o, r, k) <==> Insertable(o, r, k) {
      InsertableExactly(o, r, k);
    }
  }

  lemma {:induction false} TitleIsKept(o: seq<string>, r: seq<string>, i: int)
    requires Accepts(o, r) && TitleAt(o, i)
    ensures Retitled(r, o[i])
  {
    var m := Greedy(o, r, 0, 0);
    GuardAcceptsExactly(o, r);
    GreedyEmbeds(o, r, 0, 0);
    assert o[0..] == o;
    if m[i].Some? {
      assert TitleAt(r, m[i].value) && SameTitle(o[i], o[i]);
    } else {
      assert Replaceable(o, r, i);
    }
  }

  lemma {:induction false} TitleIsNotNew(o: seq<string>, r: seq<string>, k: int, i: int)
    requires Accepts(o, r) && TitleAt(r, k) && TitleAt(o, i) && !PlaceholderShape(r[k])
    ensures Retitled(o, r[k])
  {
    var m := Greedy(o, r, 0, 0);
    GuardAcceptsExactly(o, r);
    GreedyEmbeds(o, r, 0, 0);
    assert o[0..] == o;
    if Some(k) in m {
      var i :| 0 <= i < |m| && m[i] == Some(k);
      assert TitleAt(o, i) && SameTitle(o[i], r[k]);
    } else {
      BlankLineExactly(r[k]);
      assert Insertable(o, r, k);
    }
  }

  /** An accepted repair retitles nothing: every original title is there with the same
      words, and a title beside them that is no placeholder has an original's words. */
  lemma {:induction false} AcceptedKeepsTitles(o: seq<string>, r: seq<string>)
    requires Accepts(o, r)
    ensures forall i :: TitleAt(o, i) ==> Retitled(r, o[i])
    ensures forall i, k :: TitleAt(o, i) && TitleAt(r, k) && !PlaceholderShape(r[k]) ==> Retitled(o, r[k])
  {
    forall i | TitleAt(o, i) ensures Retitled(r, o[i]) {
      TitleIsKept(o, r, i);
    }
    forall i, k | TitleAt(o, i) && TitleAt(r, k) && !PlaceholderShape(r[k]) ensures Retitled(o, r[k]) {
      TitleIsNotNew(o, r, k, i);
    }
  }

  // ---------------------------------------------------------------------
  // What is reported

  /** What is said about a line that is gone: a title without its words anywhere, an
      envelope bullet without a successor or with an unaccounted one, or payload. */
  ghost predicate SaidOfLost(o: seq<string>, r: seq<string>, i: nat, v: Violation)
    requires i < |o|
  {
    match ClassifyLine(o[i])
    case H1 => v == H1Removed(o[i]) && !Retitled(r, o[i])
    case Meta(field) =>
      if EnvelopeField(field) && Inside(o, i) then
        (v == EnvelopeRemoved(o[i]) && forall k :: !BulletAt(r, k, field)) ||
        exists k :: FirstBullet(r, k, field) && !Accounted(r, k, field) && v == EnvelopeUnproven(r[k])
      else v == PayloadRemoved(o[i])
    case _ => v == PayloadRemoved(o[i])
  }

  lemma {:induction false} NoBulletExactly(r: seq<string>, field: string)
    ensures FindMeta(r, field, 0) == |r| <==> forall k :: !BulletAt(r, k, field)
  {
    FindMetaExactly(r, field);
    BulletAtExactly(r, field);
    var f := FindMeta(r, field, 0);
    if f == |r| {
      forall k ensures !BulletAt(r, k, field) {
        assert 0 <= k < |r| ==> !MetaAt(r, k, field);
      }
    } else {
      assert BulletAt(r, f, field);
    }
  }

  lemma {:induction false} UnprovenExactly(r: seq<string>, field: string, v: Violation)
    requires FindMeta(r, field, 0) < |r|
    ensures
      var f := FindMeta(r, field, 0);
      (exists k :: FirstBullet(r, k, field) && !Accounted(r, k, field) && v == EnvelopeUnproven(r[k])) <==>
      !Contains(r[f], MARKER) && !HasFieldNote(r, field) && v == EnvelopeUnproven(r[f])
  {
    var f := FindMeta(r, field, 0);
    FirstExactly(r, field);
    NotesExactly(r, field);
    assert FirstBullet(r, f, field);
  }

  lemma {:induction false} OnLostExactly(o: seq<string>, r: seq<string>, i: nat, v: Violation)
    requires i < |o|
    ensures v in OnLost(o, r, i) <==> SaidOfLost(o, r, i, v)
  {
    match ClassifyLine(o[i])
    case H1 =>
      TitlesExactly(r, o[i]);
    case Meta(field) =>
      FieldsExactly(field);
      InsideExactly(o, i);
      NoBulletExactly(r, field);
      FirstExactly(r, field);
      if FindMeta(r, field, 0) < |r| {
        UnprovenExactly(r, field, v);
      }
    case _ =>
  }

  /** The report names exactly the unmatched lines that may not be where they are, or
      may not be gone, each with its reason. */
  lemma {:induction false} ViolationsExactly(o: seq<string>, r: seq<string>, v: Violation)
    ensures
      var m := Greedy(o, r, 0, 0);
      v in Violations(o, r) <==>
        (exists i :: 0 <= i < |o| && m[i].None? && SaidOfLost(o, r, i, v)) ||
        (exists k :: 0 <= k < |r| && Some(k) !in m && !Insertable(o, r, k) && v == Inserted(r[k]))
  {
    var lost, extra := AllOnLost(o, r), AllOnInserted(o, r);
    InReportExactly(o, r, lost, extra, v);
    forall i | 0 <= i < |o| ensures v in lost[i] <==> SaidOfLost(o, r, i, v) {
      OnLostExactly(o, r, i, v);
    }
    forall k | 0 <= k < |r| ensures v in extra[k] <==> !Insertable(o, r, k) && v == Inserted(r[k]) {
      InsertableExactly(o, r, k);
    }
  }
}
