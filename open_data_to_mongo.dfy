/**
 * Building the statute collection: `parse_laws` turns the pasted law list
 * into `Law` records, and the fragment loop of `get_law_details` groups the
 * fragments of one page of the e-Sbírka API into sections (`Paragraf`).
 *
 * The law-line regular expression
 *   `^(\d+)/(\d+)\s+Sb[.]?\s+(.*?)(?:\s+(\d{2}[.]\d{2}[.]\d{4}))?$`
 * is an explicit recognizer here. Like the match object of Python's `re`,
 * it reports positions (`Spans`); `Matches` states, position by position,
 * which spans the pattern assigns to a line, and `RecognizeIff` proves that
 * `Recognize` finds exactly those.
 */
module OpenDataToMongo {
  import opened Wrappers
  import opened PyStr
  import opened Types

  // ------------------------------------------------------------------------
  // Recognizing one law line

  /**
   * `AllDigits(line[a..b])`, stated on positions of `line` so that no slice is
   * taken: every character from `a` up to but excluding `b` is a digit.
   */
  predicate DigitsIn(line: string, a: nat, b: nat)
    requires a <= b <= |line|
  {
    forall i :: a <= i < b ==> IsDigit(line[i])
  }

  /**
   * `AllSpace(line[a..b])`, stated on positions of `line` so that no slice is
   * taken: every character from `a` up to but excluding `b` is whitespace.
   */
  predicate SpacesIn(line: string, a: nat, b: nat)
    requires a <= b <= |line|
  {
    forall i :: a <= i < b ==> IsSpace(line[i])
  }

  /** `\d{2}[.]\d{2}[.]\d{4}` occupies the last ten characters, from `p` on. */
  predicate DateAt(line: string, p: nat) {
    p + 10 == |line| && line[p + 2] == '.' && line[p + 5] == '.'
    && IsDigit(line[p]) && IsDigit(line[p + 1]) && IsDigit(line[p + 3]) && IsDigit(line[p + 4])
    && IsDigit(line[p + 6]) && IsDigit(line[p + 7]) && IsDigit(line[p + 8]) && IsDigit(line[p + 9])
  }

  /** From `p` on the line is whitespace and then a date: `(?:\s+(\d{2}[.]\d{2}[.]\d{4}))?$` takes its group there. */
  predicate DateTailAt(line: string, p: nat) {
    p + 10 < |line| && SpacesIn(line, p, |line| - 10) && DateAt(line, |line| - 10)
  }

  /**
   * The positions of one match of the pattern, as `re` reports them: the
   * number is `line[..idEnd]`, the year `line[idEnd + 1..yearEnd]`, `Sb`
   * starts at `sbAt`, the optional dot ends at `tailAt`, the name is
   * `line[nameAt..nameEnd]`, and a date follows the name exactly when
   * `nameEnd < |line|`.
   */
  datatype Spans = Spans(idEnd: nat, yearEnd: nat, sbAt: nat, tailAt: nat, nameAt: nat, nameEnd: nat)

  /**
   * The spans the pattern assigns to a `line` that holds no `\n` (its first
   * match, in `re`'s leftmost, greedy-then-lazy order): maximal runs of
   * digits and whitespace, the dot when there is one, and the shortest name
   * after which the line either ends or is a whitespace-and-date tail. The
   * lines `parse_laws` matches come from `split('\n')` and hold no `\n`
   * (`Split`'s contract), so the way `.` and `$` treat a newline never
   * arises; on a string with a `\n` this reading is not the pattern's.
   */
  predicate Matches(line: string, sp: Spans) {
    // (\d+)/
    0 < sp.idEnd < |line| && DigitsIn(line, 0, sp.idEnd) && line[sp.idEnd] == '/'
    // (\d+)
    && sp.idEnd + 1 < sp.yearEnd <= |line| && DigitsIn(line, sp.idEnd + 1, sp.yearEnd)
    // \s+Sb
    && sp.yearEnd < sp.sbAt && sp.sbAt + 2 <= |line| && SpacesIn(line, sp.yearEnd, sp.sbAt)
    && line[sp.sbAt] == 'S' && line[sp.sbAt + 1] == 'b'
    // [.]?
    && (sp.tailAt == sp.sbAt + 2 || (sp.tailAt == sp.sbAt + 3 <= |line| && line[sp.sbAt + 2] == '.'))
    // \s+, as long as it goes
    && sp.tailAt < sp.nameAt <= sp.nameEnd <= |line| && SpacesIn(line, sp.tailAt, sp.nameAt)
    && (sp.nameAt == |line| || !IsSpace(line[sp.nameAt]))
    // (.*?) up to the end or up to the date tail, whichever comes first
    && (sp.nameEnd == |line| || DateTailAt(line, sp.nameEnd))
    && forall q :: sp.nameAt <= q < sp.nameEnd ==> !DateTailAt(line, q)
  }

  /** End of the maximal run of digits that starts at `i`. */
  function DigitsEnd(line: string, i: nat): (j: nat)
    requires i <= |line|
    ensures i <= j <= |line| && DigitsIn(line, i, j) && (j == |line| || !IsDigit(line[j]))
    decreases |line| - i
  {
    if i < |line| && IsDigit(line[i]) then DigitsEnd(line, i + 1) else i
  }

  /** End of the maximal run of whitespace that starts at `i`. */
  function SpacesEnd(line: string, i: nat): (j: nat)
    requires i <= |line|
    ensures i <= j <= |line| && SpacesIn(line, i, j) && (j == |line| || !IsSpace(line[j]))
    decreases |line| - i
  {
    if i < |line| && IsSpace(line[i]) then SpacesEnd(line, i + 1) else i
  }

  /**
   * Where the lazy name group `(.*?)` stops when it starts at `i`: the first
   * position from which the rest of the line is a date tail, or the end of
   * the line.
   */
  function NameEnd(line: string, i: nat): (j: nat)
    requires i <= |line|
    ensures i <= j <= |line| && (j == |line| || DateTailAt(line, j))
    ensures forall q :: i <= q < j ==> !DateTailAt(line, q)
    decreases |line| - i
  {
    if i == |line| || DateTailAt(line, i) then i else NameEnd(line, i + 1)
  }

  /** A maximal run of digits has only one end. */
  lemma {:induction false} DigitsEndUnique(line: string, i: nat, k: nat)
    requires i <= k <= |line| && DigitsIn(line, i, k) && (k == |line| || !IsDigit(line[k]))
    ensures DigitsEnd(line, i) == k
  {
  }

  lemma {:induction false} SpacesEndUnique(line: string, i: nat, k: nat)
    requires i <= k <= |line| && SpacesIn(line, i, k) && (k == |line| || !IsSpace(line[k]))
    ensures SpacesEnd(line, i) == k
  {
  }

  lemma {:induction false} NameEndUnique(line: string, i: nat, k: nat)
    requires i <= k <= |line| && (k == |line| || DateTailAt(line, k))
    requires forall q :: i <= q < k ==> !DateTailAt(line, q)
    ensures NameEnd(line, i) == k
  {
  }

  /** The spans lie inside the line, in order. */
  predicate SpansFit(line: string, sp: Spans) {
    sp.idEnd < sp.yearEnd <= sp.nameAt <= sp.nameEnd <= |line| && (sp.nameEnd < |line| ==> 10 <= |line|)
  }

  /** `law_pattern.match(line)`: the spans of the match, or `None`. */
  function Recognize(line: string): (r: Option<Spans>)
    ensures r.Some? ==> SpansFit(line, r.value)
  {
    var idEnd := DigitsEnd(line, 0);
    if idEnd == 0 || idEnd == |line| || line[idEnd] != '/' then None
    else
      var yearEnd := DigitsEnd(line, idEnd + 1);
      if yearEnd == idEnd + 1 then None
      else
        var sbAt := SpacesEnd(line, yearEnd);
        if sbAt == yearEnd || sbAt + 2 > |line| || line[sbAt] != 'S' || line[sbAt + 1] != 'b' then None
        else
          var tailAt := if sbAt + 2 < |line| && line[sbAt + 2] == '.' then sbAt + 3 else sbAt + 2;
          var nameAt := SpacesEnd(line, tailAt);
          if nameAt == tailAt then None
          else Some(Spans(idEnd, yearEnd, sbAt, tailAt, nameAt, NameEnd(line, nameAt)))
  }

  /** What `Recognize` reports is the match of the pattern. */
  lemma {:induction false} RecognizeSound(line: string)
    ensures Recognize(line).Some? ==> Matches(line, Recognize(line).value)
  {
  }

  /** The match of the pattern is what `Recognize` reports. */
  lemma {:induction false} RecognizeComplete(line: string, sp: Spans)
    requires Matches(line, sp)
    ensures Recognize(line) == Some(sp)
  {
    DigitsEndUnique(line, 0, sp.idEnd);
    SpaceNotDigit(line[sp.yearEnd]);
    assert !IsDigit(line[sp.yearEnd]);
    DigitsEndUnique(line, sp.idEnd + 1, sp.yearEnd);
    NotSpace('S');
    SpacesEndUnique(line, sp.yearEnd, sp.sbAt);
    var tailAt := if sp.sbAt + 2 < |line| && line[sp.sbAt + 2] == '.' then sp.sbAt + 3 else sp.sbAt + 2;
    if line[sp.sbAt + 2] == '.' {
      NotSpace('.');
    }
    assert tailAt == sp.tailAt;
    SpacesEndUnique(line, sp.tailAt, sp.nameAt);
    NameEndUnique(line, sp.nameAt, sp.nameEnd);
  }

  /** `Recognize` finds a match exactly when the pattern matches, and then the same spans. */
  lemma {:induction false} RecognizeIff(line: string, sp: Spans)
    ensures Recognize(line) == Some(sp) <==> Matches(line, sp)
  {
    RecognizeSound(line);
    if Matches(line, sp) {
      RecognizeComplete(line, sp);
    }
  }

  // ------------------------------------------------------------------------
  // parse_laws

  /** The category headers of the law list. */
  const Categories: seq<string> :=
    ["FINANCE", "MEZINÁRODNÍ PRÁVO", "OBČANSKÉ PRÁVO", "Obchod a podnikání", "PRACOVNÍ PRÁVO",
     "SPRÁVNÍ PRÁVO", "TRESTNÍ PRÁVO", "ÚSTAVNÍ PRÁVO", "HOSPODÁŘSTVÍ"]

  /** Table header rows of the list start with this word. */
  const ColumnHeader := "Číslo"

  /** `dd.dd.dddd` */
  predicate IsDate(d: string) {
    DateAt(d, 0)
  }

  /** A non-empty run of digits. */
  predicate IsNumber(s: string) {
    |s| > 0 && AllDigits(s)
  }

  /** The shape of every record `parse_laws` builds. */
  predicate IsListedLaw(law: Law) {
    IsNumber(law.id) && IsNumber(law.year) && IsStripped(law.nazev)
    && (law.date.Some? ==> IsDate(law.date.value))
    && law.staleURL.None? && law.paragrafy == []
  }

  /** A run of digits is left alone by `strip`. */
  lemma {:induction false} StripNumber(s: string)
    requires IsNumber(s)
    ensures Strip(s) == s
  {
    SpaceNotDigit(s[0]);
    SpaceNotDigit(s[|s| - 1]);
    StripStripped(s);
  }

  /** The four groups of a match: number, year, name and (optional) date. */
  datatype Groups = Groups(id: string, year: string, name: string, date: Option<string>)

  /** A digit run of the line is a number. */
  lemma {:induction false} DigitsSlice(line: string, a: nat, b: nat)
    requires a < b <= |line| && DigitsIn(line, a, b)
    ensures IsNumber(line[a..b])
  {
  }

  /** The last ten characters of a line that ends in a date. */
  lemma {:induction false} DateSlice(line: string)
    requires |line| >= 10 && DateAt(line, |line| - 10)
    ensures IsDate(line[|line| - 10..])
  {
  }

  /** `match.groups()` */
  function GroupsOf(line: string, sp: Spans): Groups
    requires SpansFit(line, sp)
  {
    var date := if sp.nameEnd < |line| then Some(line[|line| - 10..]) else None;
    Groups(line[..sp.idEnd], line[sp.idEnd + 1..sp.yearEnd], line[sp.nameAt..sp.nameEnd], date)
  }

  /** The groups of a match are two numbers, a name and, if any, a date. */
  lemma {:induction false} GroupsOfMatch(line: string, sp: Spans)
    requires Matches(line, sp)
    ensures SpansFit(line, sp) && IsLawGroups(GroupsOf(line, sp))
  {
    DigitsSlice(line, 0, sp.idEnd);
    DigitsSlice(line, sp.idEnd + 1, sp.yearEnd);
    if sp.nameEnd < |line| {
      DateSlice(line);
    }
  }

  /** A date is left alone by `strip`. */
  lemma {:induction false} StripDate(d: string)
    requires IsDate(d)
    ensures Strip(d) == d
  {
    SpaceNotDigit(d[0]);
    SpaceNotDigit(d[9]);
    StripStripped(d);
  }

  /**
   * The `Law` built from the groups of a match. Of the four `strip` calls
   * only the one on the name is written out: by `StripNumber` and
   * `StripDate` the others return their argument.
   */
  function LawOf(g: Groups, category: Option<string>): (law: Law)
    ensures IsLawGroups(g) ==> IsListedLaw(law)
    ensures law.category == category
  {
    NewLaw(Strip(g.name), g.id, g.year).(category := category, date := g.date)
  }

  /** The groups a law line holds. */
  predicate IsLawGroups(g: Groups) {
    IsNumber(g.id) && IsNumber(g.year) && (g.date.Some? ==> IsDate(g.date.value))
  }

  /** What `parse_laws` makes of one line of the list. */
  datatype LineKind = Blank | ColumnHeaderLine | CategoryHeader(name: string) | LawLine(groups: Groups) | Unrecognized

  /** The checks of the loop body of `parse_laws` on one line, in their order. */
  function Classify(raw: string): LineKind {
    var line := Strip(raw);
    if line == [] then Blank
    else if StartsWith(line, ColumnHeader) then ColumnHeaderLine
    else if line in Categories then CategoryHeader(line)
    else
      match Recognize(line)
      case Some(sp) => LawLine(GroupsOf(line, sp))
      case None => Unrecognized
  }

  /** A line is skipped as blank exactly when it is whitespace only. */
  lemma {:induction false} ClassifyBlank(raw: string)
    ensures Classify(raw).Blank? <==> AllSpace(raw)
  {
    StripEmptyIff(raw);
  }

  /** A line is skipped as a table header exactly when, stripped, it starts with `Číslo`. */
  lemma {:induction false} ClassifyColumnHeader(raw: string)
    ensures Classify(raw) == ColumnHeaderLine <==> StartsWith(Strip(raw), ColumnHeader)
  {
    if StartsWith(Strip(raw), ColumnHeader) {
      assert Strip(raw)[0] == ColumnHeader[0];
    }
  }

  /** No category name starts like a column header or a law line. */
  lemma {:induction false} CategoryStart(name: string)
    requires name in Categories
    ensures name != [] && name[0] != ColumnHeader[0] && !IsDigit(name[0])
  {
  }

  /** A line is a category header exactly when, stripped, it is one of the category names. */
  lemma {:induction false} ClassifyHeader(raw: string)
    ensures Classify(raw).CategoryHeader? <==> Strip(raw) in Categories
    ensures Classify(raw).CategoryHeader? ==> Classify(raw).name == Strip(raw)
  {
    if Strip(raw) in Categories {
      CategoryStart(Strip(raw));
    }
  }

  /**
   * A line yields a law exactly when the pattern matches it, whatever the
   * order of the checks: neither a column header nor a category name starts
   * with a digit.
   */
  lemma {:induction false} ClassifyLaw(raw: string)
    ensures Classify(raw).LawLine? <==> Recognize(Strip(raw)).Some?
    ensures Recognize(Strip(raw)).Some? ==>
      Matches(Strip(raw), Recognize(Strip(raw)).value)
      && Classify(raw) == LawLine(GroupsOf(Strip(raw), Recognize(Strip(raw)).value))
    ensures Classify(raw).LawLine? ==> IsLawGroups(Classify(raw).groups)
  {
    var line := Strip(raw);
    RecognizeSound(line);
    if Recognize(line).Some? {
      GroupsOfMatch(line, Recognize(line).value);
      assert IsDigit(line[0]);
      if line in Categories {
        CategoryStart(line);
      }
    }
  }

  /** The kinds of the lines, in order. */
  function Kinds(lines: seq<string>): (kinds: seq<LineKind>)
    ensures |kinds| == |lines|
    ensures forall k :: 0 <= k < |lines| ==> kinds[k] == Classify(lines[k])
  {
    if lines == [] then [] else [Classify(lines[0])] + Kinds(lines[1..])
  }

  /** The laws `parse_laws` appends while it reads lines of the given kinds, starting with `category` current. */
  function LawsOf(kinds: seq<LineKind>, category: Option<string>): (laws: seq<Law>)
    ensures |laws| <= |kinds|
  {
    if kinds == [] then []
    else
      match kinds[0]
      case CategoryHeader(name) => LawsOf(kinds[1..], Some(name))
      case LawLine(g) => [LawOf(g, category)] + LawsOf(kinds[1..], category)
      case _ => LawsOf(kinds[1..], category)
  }

  /** The current category once lines of the given kinds are read. */
  function CategoryAfter(kinds: seq<LineKind>, category: Option<string>): Option<string> {
    if kinds == [] then category
    else
      match kinds[0]
      case CategoryHeader(name) => CategoryAfter(kinds[1..], Some(name))
      case _ => CategoryAfter(kinds[1..], category)
  }

  /** Reading two stretches of lines one after the other. */
  lemma {:induction false} LawsOfAppend(a: seq<LineKind>, b: seq<LineKind>, category: Option<string>)
    ensures LawsOf(a + b, category) == LawsOf(a, category) + LawsOf(b, CategoryAfter(a, category))
    ensures CategoryAfter(a + b, category) == CategoryAfter(b, CategoryAfter(a, category))
  {
    if a != [] {
      assert (a + b)[0] == a[0] && (a + b)[1..] == a[1..] + b;
      match a[0]
      case CategoryHeader(name) =>
        LawsOfAppend(a[1..], b, Some(name));
      case LawLine(g) =>
        LawsOfAppend(a[1..], b, category);
        AppendAssoc([LawOf(g, category)], LawsOf(a[1..], category), LawsOf(b, CategoryAfter(a, category)));
      case _ =>
        LawsOfAppend(a[1..], b, category);
    } else {
      assert a + b == b;
    }
  }

  /**
   * One line yields one law exactly when the pattern matches it, with the
   * current category; it changes the category exactly when, stripped, it is
   * a category name, and then to that name.
   */
  lemma {:induction false} OneLine(raw: string, category: Option<string>)
    ensures var line := Strip(raw);
      LawsOf([Classify(raw)], category)
      == (match Recognize(line)
          case Some(sp) => [LawOf(GroupsOf(line, sp), category)]
          case None => [])
    ensures CategoryAfter([Classify(raw)], category)
      == if Strip(raw) in Categories then Some(Strip(raw)) else category
  {
    ClassifyLaw(raw);
    ClassifyHeader(raw);
    assert [Classify(raw)][1..] == [];
  }

  /** Lines without a category header leave the category as it was: laws before the first header get `None`. */
  lemma {:induction false} NoHeaderKeepsCategory(kinds: seq<LineKind>, category: Option<string>)
    requires forall k :: 0 <= k < |kinds| ==> !kinds[k].CategoryHeader?
    ensures CategoryAfter(kinds, category) == category
    ensures forall law :: law in LawsOf(kinds, category) ==> law.category == category
  {
    if kinds != [] {
      NoHeaderKeepsCategory(kinds[1..], category);
    }
  }

  /** The kinds `Classify` assigns: law lines hold numbers and dates, headers hold category names. */
  predicate WellClassified(kinds: seq<LineKind>) {
    forall k :: 0 <= k < |kinds| ==>
      (kinds[k].LawLine? ==> IsLawGroups(kinds[k].groups))
      && (kinds[k].CategoryHeader? ==> kinds[k].name in Categories)
  }

  lemma {:induction false} KindsWellClassified(lines: seq<string>)
    ensures WellClassified(Kinds(lines))
  {
    forall k | 0 <= k < |lines|
      ensures Kinds(lines)[k].LawLine? ==> IsLawGroups(Kinds(lines)[k].groups)
      ensures Kinds(lines)[k].CategoryHeader? ==> Kinds(lines)[k].name in Categories
    {
      ClassifyLaw(lines[k]);
      ClassifyHeader(lines[k]);
    }
  }

  /** A known or absent category. */
  predicate IsCategory(category: Option<string>) {
    category.None? || category.value in Categories
  }

  lemma {:induction false} LawsOfListed(kinds: seq<LineKind>, category: Option<string>)
    requires WellClassified(kinds) && IsCategory(category)
    ensures forall law :: law in LawsOf(kinds, category) ==> IsListedLaw(law) && IsCategory(law.category)
  {
    if kinds != [] {
      assert WellClassified(kinds[1..]) by {
        forall k | 0 <= k < |kinds| - 1 ensures kinds[1..][k] == kinds[k + 1] { }
      }
      match kinds[0]
      case CategoryHeader(name) =>
        LawsOfListed(kinds[1..], Some(name));
      case _ =>
        LawsOfListed(kinds[1..], category);
    }
  }

  /**
   * Every law `parse_laws` returns has a numeric id and year, a stripped
   * name, a `dd.dd.dddd` date or none, no URL, no sections yet, and either no
   * category or one of the nine category names.
   */
  lemma {:induction false} ParsedLawsListed(text: string)
    ensures var laws := LawsOf(Kinds(Split(Strip(text), '\n')), None);
      forall law :: law in laws ==> IsListedLaw(law) && IsCategory(law.category)
  {
    KindsWellClassified(Split(Strip(text), '\n'));
    LawsOfListed(Kinds(Split(Strip(text), '\n')), None);
  }

  /** A heading that is not one of the nine category names, such as `ÚSTAVA ČR`, is neither a header nor a law. */
  lemma UnlistedHeadingIgnored()
    ensures Classify("ÚSTAVA ČR") == Unrecognized
  {
    var line := "ÚSTAVA ČR";
    NotSpace('Ú');
    NotSpace('R');
    StripStripped(line);
    assert !IsDigit(line[0]);
  }

  /** A table header row is skipped. */
  lemma ColumnHeaderRowSkipped()
    ensures Classify("Číslo\tNázev předpisu\tÚčinnost od") == ColumnHeaderLine
  {
    var line := "Číslo\tNázev předpisu\tÚčinnost od";
    NotSpace('Č');
    NotSpace('d');
    StripStripped(line);
    assert ColumnHeader <= line;
  }

  /** A stripped line the pattern matches is a law line holding the groups of the match. */
  lemma {:induction false} ClassifyMatched(line: string, sp: Spans)
    requires IsStripped(line) && Matches(line, sp)
    ensures SpansFit(line, sp) && Classify(line) == LawLine(GroupsOf(line, sp))
  {
    StripStripped(line);
    RecognizeComplete(line, sp);
    ClassifyLaw(line);
  }

  /** A row as the law list writes it: `id/year Sb.`, a tab, the name and, if any, a tab and the date. */
  function ListRow(id: string, year: string, name: string, date: Option<string>): string {
    id + "/" + year + " Sb.\t" + name + (if date.Some? then "\t" + date.value else "")
  }

  /**
   * Such a row, on one line, is read back into exactly its fields. Without
   * a date, a name that does not end in a digit keeps whatever it holds,
   * such as a tab and `01.04.1997)`; with one, the name is split off the
   * date.
   */
  lemma {:induction false} ListRowParses(id: string, year: string, name: string, date: Option<string>)
    requires IsNumber(id) && IsNumber(year) && name != [] && IsStripped(name)
    requires date.Some? ==> IsDate(date.value)
    requires date.None? ==> !IsDigit(name[|name| - 1])
    requires '\n' !in name
    ensures Classify(ListRow(id, year, name, date)) == LawLine(Groups(id, year, name, date))
  {
    var line := ListRow(id, year, name, date);
    var sp := ListRowSpans(id, year, name, date);
    ListRowMatches(id, year, name, date);
    ClassifyMatched(line, sp);
  }

  /**
   * A date that does not end the line is no date: the row of statute 13/1997,
   * whose date is followed by `)`, keeps it in the name and has no date.
   */
  lemma TrailingTextKeptInName()
    ensures var name := "Zákon o pozemních komunikacích\t01.04.1997)";
      Classify(ListRow("13", "1997", name, None)) == LawLine(Groups("13", "1997", name, None))
  {
    var name := "Zákon o pozemních komunikacích\t01.04.1997)";
    NotSpace(name[0]);
    NotSpace(name[|name| - 1]);
    ListRowParses("13", "1997", name, None);
  }

  /** Where the pattern finds the groups of a row. */
  function ListRowSpans(id: string, year: string, name: string, date: Option<string>): Spans {
    var yearEnd := |id| + 1 + |year|;
    Spans(|id|, yearEnd, yearEnd + 1, yearEnd + 4, yearEnd + 5, yearEnd + 5 + |name|)
  }

  /** Where each part of a row lies, for the spans `sp`. */
  predicate RowLayout(line: string, sp: Spans, id: string, year: string, name: string, date: Option<string>) {
    sp.idEnd == |id| && sp.yearEnd == |id| + 1 + |year| && sp.sbAt == sp.yearEnd + 1
    && sp.tailAt == sp.yearEnd + 4 && sp.nameAt == sp.yearEnd + 5 && sp.nameEnd == sp.nameAt + |name|
    && |line| == sp.nameEnd + (if date.Some? then 11 else 0)
    && line[..|id|] == id && line[|id| + 1..sp.yearEnd] == year && line[sp.nameAt..sp.nameEnd] == name
    && line[|id|] == '/' && line[sp.yearEnd] == ' ' && line[sp.sbAt] == 'S' && line[sp.sbAt + 1] == 'b'
    && line[sp.sbAt + 2] == '.' && line[sp.tailAt] == '\t'
    && (date.Some? ==> line[sp.nameEnd] == '\t' && line[|line| - 10..] == date.value)
  }

  lemma {:induction false} ListRowLayout(id: string, year: string, name: string, date: Option<string>)
    requires date.Some? ==> |date.value| == 10
    ensures RowLayout(ListRow(id, year, name, date), ListRowSpans(id, year, name, date), id, year, name, date)
  {
    var line := ListRow(id, year, name, date);
    var tail := if date.Some? then "\t" + date.value else "";
    assert line == id + "/" + year + " Sb.\t" + name + tail;
  }

  lemma {:induction false} ListRowMatches(id: string, year: string, name: string, date: Option<string>)
    requires IsNumber(id) && IsNumber(year) && name != [] && IsStripped(name)
    requires date.Some? ==> IsDate(date.value)
    requires date.None? ==> !IsDigit(name[|name| - 1])
    ensures var line := ListRow(id, year, name, date);
      var sp := ListRowSpans(id, year, name, date);
      IsStripped(line) && Matches(line, sp) && SpansFit(line, sp)
      && GroupsOf(line, sp) == Groups(id, year, name, date)
  {
    ListRowLayout(id, year, name, date);
    LayoutMatches(ListRow(id, year, name, date), ListRowSpans(id, year, name, date), id, year, name, date);
  }

  /** Any line laid out as a row is matched with the spans of its parts. */
  lemma {:induction false} LayoutMatches(line: string, sp: Spans, id: string, year: string, name: string, date: Option<string>)
    requires IsNumber(id) && IsNumber(year) && name != [] && IsStripped(name)
    requires date.Some? ==> IsDate(date.value)
    requires date.None? ==> !IsDigit(name[|name| - 1])
    requires RowLayout(line, sp, id, year, name, date)
    ensures IsStripped(line) && Matches(line, sp) && SpansFit(line, sp)
    ensures GroupsOf(line, sp) == Groups(id, year, name, date)
  {
    assert line[0] == id[0] && line[sp.nameAt] == name[0] && line[sp.nameEnd - 1] == name[|name| - 1];
    assert IsSpace(' ') && IsSpace('\t');
    SpaceNotDigit(id[0]);
    if date.Some? {
      assert line[|line| - 1] == date.value[9];
      SpaceNotDigit(date.value[9]);
    }
    assert Matches(line, sp) by {
      assert DigitsIn(line, 0, |id|) && DigitsIn(line, |id| + 1, sp.yearEnd);
      forall q | sp.nameAt <= q < sp.nameEnd
        ensures !DateTailAt(line, q)
      {
      }
    }
  }

  /** `parse_laws(text)` */
  method ParseLaws(text: string) returns (laws: seq<Law>)
    ensures laws == LawsOf(Kinds(Split(Strip(text), '\n')), None)
  {
    var lines := Split(Strip(text), '\n');
    ghost var kinds := Kinds(lines);
    laws := [];
    var category: Option<string> := None;
    for i := 0 to |lines|
      invariant laws + LawsOf(kinds[i..], category) == LawsOf(kinds, None)
    {
      var kind := Classify(lines[i]);
      assert kind == kinds[i];
      LawsOfStep(kinds, i, category);
      match kind {
        case CategoryHeader(name) =>
          category := Some(name);
        case LawLine(g) =>
          AppendAssoc(laws, [LawOf(g, category)], LawsOf(kinds[i + 1..], category));
          laws := laws + [LawOf(g, category)];
        case _ =>
      }
    }
    assert kinds[|lines|..] == [];
  }

  /** What one line contributes to the laws, and the category it leaves for the rest. */
  lemma {:induction false} LawsOfStep(kinds: seq<LineKind>, i: nat, category: Option<string>)
    requires i < |kinds|
    ensures LawsOf(kinds[i..], category)
      == match kinds[i]
         case CategoryHeader(name) => LawsOf(kinds[i + 1..], Some(name))
         case LawLine(g) => [LawOf(g, category)] + LawsOf(kinds[i + 1..], category)
         case _ => LawsOf(kinds[i + 1..], category)
  {
    assert kinds[i..][0] == kinds[i] && kinds[i..][1..] == kinds[i + 1..];
  }

  // ------------------------------------------------------------------------
  // Removing markup: re.sub(r'<[^>]+>', '', xhtml)

  /** The first `>` at or after `i`, or `|s|` when there is none. */
  function NextClose(s: string, i: nat): (k: nat)
    requires i <= |s|
    ensures i <= k <= |s| && (k == |s| || s[k] == '>')
    ensures forall q :: i <= q < k ==> s[q] != '>'
    decreases |s| - i
  {
    if i == |s| || s[i] == '>' then i else NextClose(s, i + 1)
  }

  /** `<[^>]+>` matches at the start of `s`: a `<`, at least one other character than `>`, then a `>`. */
  predicate TagAtHead(s: string) {
    |s| >= 2 && s[0] == '<' && s[1] != '>' && '>' in s[2..]
  }

  /** The length of the tag at the start of `s`: up to and including the first `>`. */
  function TagLength(s: string): (n: nat)
    requires TagAtHead(s)
    ensures 3 <= n <= |s| && s[n - 1] == '>'
    ensures forall q :: 1 <= q < n - 1 ==> s[q] != '>'
  {
    var k := NextClose(s, 2);
    assert k < |s| by {
      var w :| 0 <= w < |s[2..]| && s[2..][w] == '>';
      assert s[w + 2] == '>';
    }
    k + 1
  }

  /** `re.sub(r'<[^>]+>', '', s)`: the matches, leftmost first and never overlapping, are deleted. */
  function StripTags(s: string): (r: string)
    ensures |r| <= |s|
    decreases |s|
  {
    if s == [] then []
    else if TagAtHead(s) then StripTags(s[TagLength(s)..])
    else [s[0]] + StripTags(s[1..])
  }

  /** No position of `s` starts a tag. */
  predicate TagFree(s: string) {
    forall p :: 0 <= p < |s| ==> !TagAtHead(s[p..])
  }

  /** Removing tags only deletes characters. */
  lemma {:induction false} StripTagsChars(s: string)
    ensures forall c :: c in StripTags(s) ==> c in s
    decreases |s|
  {
    if s != [] {
      if TagAtHead(s) {
        StripTagsChars(s[TagLength(s)..]);
      } else {
        StripTagsChars(s[1..]);
      }
    }
  }

  /** A string is free of tags exactly when its first position starts none and its tail is free of them. */
  lemma {:induction false} TagFreeCons(s: string)
    requires s != []
    ensures TagFree(s) <==> !TagAtHead(s) && TagFree(s[1..])
  {
    assert s[0..] == s;
    if TagFree(s) {
      forall p | 0 <= p < |s| - 1
        ensures !TagAtHead(s[1..][p..])
      {
        assert s[1..][p..] == s[p + 1..];
      }
    }
    if !TagAtHead(s) && TagFree(s[1..]) {
      forall p | 1 <= p < |s|
        ensures !TagAtHead(s[p..])
      {
        assert s[1..][p - 1..] == s[p..];
      }
    }
  }

  /** What is left once the tags are removed holds no tag: no `<` in it is followed by a tag body and a `>`. */
  lemma {:induction false} StripTagsTagFree(s: string)
    ensures TagFree(StripTags(s))
    decreases |s|
  {
    if s != [] {
      if TagAtHead(s) {
        StripTagsTagFree(s[TagLength(s)..]);
      } else {
        var rest := StripTags(s[1..]);
        var r := [s[0]] + rest;
        StripTagsTagFree(s[1..]);
        assert r[1..] == rest;
        if s[0] == '<' && |s| >= 2 {
          if s[1] == '>' {
            assert TagAtHead(s[1..]) == false;
            assert rest == [s[1]] + StripTags(s[1..][1..]);
            assert r[1] == '>';
          } else {
            assert '>' !in s[2..];
            assert '>' !in s[1..] by {
              assert s[1..] == [s[1]] + s[2..];
            }
            StripTagsChars(s[1..]);
            assert '>' !in r[2..] by {
              forall c | c in r[2..] ensures c in rest {
                var w :| 0 <= w < |r[2..]| && r[2..][w] == c;
                assert rest[w + 1] == c;
              }
            }
          }
        }
        TagFreeCons(r);
      }
    }
  }

  /** Text without tags is left as it is. */
  lemma {:induction false} StripTagsOfTagFree(s: string)
    requires TagFree(s)
    ensures StripTags(s) == s
    decreases |s|
  {
    if s != [] {
      TagFreeCons(s);
      StripTagsOfTagFree(s[1..]);
      assert [s[0]] + s[1..] == s;
    }
  }

  /** Removing tags a second time changes nothing. */
  lemma {:induction false} StripTagsIdempotent(s: string)
    ensures StripTags(StripTags(s)) == StripTags(s)
  {
    StripTagsTagFree(s);
    StripTagsOfTagFree(StripTags(s));
  }

  /** `<>` is not a tag: `[^>]+` needs at least one character. */
  lemma EmptyBracketsKept()
    ensures StripTags("<>") == "<>"
  {
    var s := "<>";
    assert !TagAtHead(s);
    assert !TagAtHead(s[1..]);
    assert s[1..][1..] == [];
    assert [s[0]] + ([s[1]] + []) == s;
  }

  // ------------------------------------------------------------------------
  // The section number: re.search(r'\d+', xhtml).group()

  /** The first position at or after `i` that holds a digit, or `|s|`. */
  function FirstDigit(s: string, i: nat): (j: nat)
    requires i <= |s|
    ensures i <= j <= |s| && (j == |s| || IsDigit(s[j]))
    ensures forall q :: i <= q < j ==> !IsDigit(s[q])
    decreases |s| - i
  {
    if i == |s| || IsDigit(s[i]) then i else FirstDigit(s, i + 1)
  }

  /** The leftmost, longest run of digits in `x`, markup included, or `None` when `x` has no digit. */
  function FirstNumber(x: string): (r: Option<string>)
    ensures r.None? <==> NoDigits(x)
    ensures r.Some? ==> IsNumber(r.value)
  {
    var i := FirstDigit(x, 0);
    if i == |x| then None
    else
      var j := DigitsEnd(x, i);
      assert IsDigit(x[i]);
      Some(x[i..j])
  }

  /** The run found is the first one and all of it: no digit before it, none just after it. */
  lemma {:induction false} FirstNumberAt(x: string, i: nat, j: nat)
    requires i < j <= |x| && DigitsIn(x, i, j) && (j == |x| || !IsDigit(x[j]))
    requires forall q :: 0 <= q < i ==> !IsDigit(x[q])
    ensures FirstNumber(x) == Some(x[i..j])
  {
    FirstDigitUnique(x, 0, i);
    DigitsEndUnique(x, i, j);
  }

  lemma {:induction false} FirstDigitUnique(s: string, i: nat, k: nat)
    requires i <= k < |s| && IsDigit(s[k])
    requires forall q :: i <= q < k ==> !IsDigit(s[q])
    ensures FirstDigit(s, i) == k
    decreases k - i
  {
    if i < k {
      FirstDigitUnique(s, i + 1, k);
    }
  }

  // ------------------------------------------------------------------------
  // Grouping the fragments of one page into sections

  /**
   * One item of the page's fragment list, as the fields the loop reads:
   * `kodTypuFragmentu` (`None` when missing) and `xhtml` (a missing key
   * reads as `Some("")`; `None` is a JSON `null`).
   */
  datatype Fragment = Fragment(kind: Option<string>, xhtml: Option<string>)

  /** The fragment kind that opens a new section. */
  const ParagrafKind := "Paragraf"

  predicate OpensSection(f: Fragment) {
    f.kind == Some(ParagrafKind)
  }

  /** The section that is open, if any, as it is saved when a new one begins. */
  function Closed(number: Option<string>, text: string): (r: seq<Paragraf>)
    ensures |r| <= 1
  {
    if number.Some? then [Paragraf(number.value, Strip(text))] else []
  }

  /**
   * The sections the loop appends from the `i`-th fragment on, with
   * `number` and `text` the open section. A `null` xhtml makes `re` raise a
   * `TypeError`, which ends the page at once: what was appended stays, the
   * rest of the page and the final save are skipped.
   */
  function PageFrom(fs: seq<Fragment>, i: nat, number: Option<string>, text: string): seq<Paragraf>
    requires i <= |fs|
    decreases |fs| - i
  {
    if i == |fs| then
      if number.Some? && Strip(text) != [] then [Paragraf(number.value, Strip(text))] else []
    else
      var f := fs[i];
      if OpensSection(f) then
        match f.xhtml
        case None => Closed(number, text)
        case Some(x) =>
          match FirstNumber(x)
          case None => Closed(number, text) + PageFrom(fs, i + 1, number, text)
          case Some(m) => Closed(number, text) + PageFrom(fs, i + 1, Some(m), "")
      else
        match f.xhtml
        case None => []
        case Some(x) => PageFrom(fs, i + 1, number, text + StripTags(x) + "\n")
  }

  /** The sections of one page. */
  function Page(fs: seq<Fragment>): seq<Paragraf> {
    PageFrom(fs, 0, None, "")
  }

  /** The loop over the fragments of one page, appending to `law.paragrafy`. */
  method GroupPage(law: Law, fragments: seq<Fragment>) returns (result: Law)
    ensures result == law.(paragrafy := law.paragrafy + Page(fragments))
  {
    var paragrafy := law.paragrafy;
    var number: Option<string> := None;
    var text := "";
    var i := 0;
    while i < |fragments|
      invariant i <= |fragments|
      invariant paragrafy + PageFrom(fragments, i, number, text) == law.paragrafy + Page(fragments)
    {
      var f := fragments[i];
      if OpensSection(f) {
        ghost var before := paragrafy;
        if number.Some? {
          paragrafy := paragrafy + [Paragraf(number.value, Strip(text))];
        }
        assert paragrafy == before + Closed(number, text);
        if f.xhtml.None? {
          return law.(paragrafy := paragrafy);
        }
        var m := FirstNumber(f.xhtml.value);
        if m.Some? {
          AppendAssoc(before, Closed(number, text), PageFrom(fragments, i + 1, m, ""));
          number := m;
          text := "";
        } else {
          AppendAssoc(before, Closed(number, text), PageFrom(fragments, i + 1, number, text));
        }
      } else {
        if f.xhtml.None? {
          return law.(paragrafy := paragrafy);
        }
        text := text + StripTags(f.xhtml.value) + "\n";
      }
      i := i + 1;
    }
    if number.Some? && Strip(text) != [] {
      paragrafy := paragrafy + [Paragraf(number.value, Strip(text))];
    }
    result := law.(paragrafy := paragrafy);
  }

  /** `c` is the number some section-opening fragment of the page carries. */
  predicate NumberedBy(fs: seq<Fragment>, c: string) {
    exists k :: 0 <= k < |fs| && OpensSection(fs[k]) && fs[k].xhtml.Some? && FirstNumber(fs[k].xhtml.value) == Some(c)
  }

  /**
   * Every section saved carries the number of a section-opening fragment of
   * the page, and its text is stripped.
   */
  lemma {:induction false} PageFromNumbered(fs: seq<Fragment>, i: nat, number: Option<string>, text: string)
    requires i <= |fs|
    requires number.Some? ==> NumberedBy(fs, number.value)
    ensures forall sec :: sec in PageFrom(fs, i, number, text) ==>
      NumberedBy(fs, sec.cislo) && IsStripped(sec.zneni)
    decreases |fs| - i
  {
    if i < |fs| {
      var f := fs[i];
      if OpensSection(f) {
        if f.xhtml.Some? {
          var m := FirstNumber(f.xhtml.value);
          if m.Some? {
            assert NumberedBy(fs, m.value) by {
              assert OpensSection(fs[i]) && FirstNumber(fs[i].xhtml.value) == Some(m.value);
            }
            PageFromNumbered(fs, i + 1, m, "");
          } else {
            PageFromNumbered(fs, i + 1, number, text);
          }
        }
      } else if f.xhtml.Some? {
        PageFromNumbered(fs, i + 1, number, text + StripTags(f.xhtml.value) + "\n");
      }
    }
  }

  /** The sections of a page are numbered by its fragments, their numbers are digit runs, their texts stripped. */
  lemma {:induction false} PageNumbered(fs: seq<Fragment>)
    ensures forall sec :: sec in Page(fs) ==>
      NumberedBy(fs, sec.cislo) && IsNumber(sec.cislo) && IsStripped(sec.zneni)
  {
    PageFromNumbered(fs, 0, None, "");
    forall sec | sec in Page(fs)
      ensures IsNumber(sec.cislo)
    {
      var k :| 0 <= k < |fs| && OpensSection(fs[k]) && fs[k].xhtml.Some? && FirstNumber(fs[k].xhtml.value) == Some(sec.cislo);
    }
  }

  /** How many fragments from the `i`-th on open a section. */
  function Openings(fs: seq<Fragment>, i: nat): nat
    requires i <= |fs|
    decreases |fs| - i
  {
    if i == |fs| then 0 else (if OpensSection(fs[i]) then 1 else 0) + Openings(fs, i + 1)
  }

  /** At most one section per section-opening fragment, and one more for a section already open. */
  lemma {:induction false} PageFromSize(fs: seq<Fragment>, i: nat, number: Option<string>, text: string)
    requires i <= |fs|
    ensures |PageFrom(fs, i, number, text)| <= Openings(fs, i) + (if number.Some? then 1 else 0)
    decreases |fs| - i
  {
    if i < |fs| {
      var f := fs[i];
      if f.xhtml.Some? {
        if OpensSection(f) {
          var m := FirstNumber(f.xhtml.value);
          if m.Some? {
            PageFromSize(fs, i + 1, m, "");
          } else {
            PageFromSize(fs, i + 1, number, text);
          }
        } else {
          PageFromSize(fs, i + 1, number, text + StripTags(f.xhtml.value) + "\n");
        }
      }
    }
  }

  /** Before any section is open, the collected text is never saved. */
  lemma {:induction false} NoNumberIgnoresText(fs: seq<Fragment>, i: nat, t1: string, t2: string)
    requires i <= |fs|
    ensures PageFrom(fs, i, None, t1) == PageFrom(fs, i, None, t2)
    decreases |fs| - i
  {
    if i < |fs| {
      var f := fs[i];
      if f.xhtml.Some? && !OpensSection(f) {
        NoNumberIgnoresText(fs, i + 1, t1 + StripTags(f.xhtml.value) + "\n", t2 + StripTags(f.xhtml.value) + "\n");
      } else if f.xhtml.Some? && FirstNumber(f.xhtml.value).None? {
        NoNumberIgnoresText(fs, i + 1, t1, t2);
      }
    }
  }

  /** The text fragments that come before the first section-opening fragment of a page are discarded. */
  lemma {:induction false} LeadingTextDiscarded(fs: seq<Fragment>, j: nat)
    requires j <= |fs|
    requires forall k :: 0 <= k < j ==> !OpensSection(fs[k]) && fs[k].xhtml.Some?
    ensures Page(fs) == PageFrom(fs, j, None, "")
  {
    if j > 0 {
      LeadingTextDiscarded(fs, j - 1);
      NoNumberIgnoresText(fs, j, "", StripTags(fs[j - 1].xhtml.value) + "\n");
      assert "" + StripTags(fs[j - 1].xhtml.value) + "\n" == StripTags(fs[j - 1].xhtml.value) + "\n";
      NoNumberIgnoresText(fs, j - 1, "", "");
    }
  }

  /** The text a run of text fragments adds: each with its markup removed and followed by a newline. */
  function Cleaned(fs: seq<Fragment>, i: nat, j: nat): string
    requires i <= j <= |fs|
    requires forall k :: i <= k < j ==> fs[k].xhtml.Some?
    decreases j - i
  {
    if i == j then [] else StripTags(fs[i].xhtml.value) + "\n" + Cleaned(fs, i + 1, j)
  }

  /** A run of text fragments only adds its cleaned text to the open section. */
  lemma {:induction false} TextRun(fs: seq<Fragment>, i: nat, j: nat, number: Option<string>, text: string)
    requires i <= j <= |fs|
    requires forall k :: i <= k < j ==> !OpensSection(fs[k]) && fs[k].xhtml.Some?
    ensures PageFrom(fs, i, number, text) == PageFrom(fs, j, number, text + Cleaned(fs, i, j))
    decreases j - i
  {
    if i < j {
      var x := fs[i].xhtml.value;
      var piece := StripTags(x) + "\n";
      assert PageFrom(fs, i, number, text) == PageFrom(fs, i + 1, number, text + StripTags(x) + "\n");
      AppendAssoc(text, StripTags(x), "\n");
      TextRun(fs, i + 1, j, number, text + piece);
      AppendAssoc(text, piece, Cleaned(fs, i + 1, j));
    } else {
      assert text + [] == text;
    }
  }

  /** A fragment that opens a section with a number saves the section open before it and starts an empty one. */
  lemma {:induction false} SectionOpens(fs: seq<Fragment>, i: nat, number: Option<string>, text: string, m: string)
    requires i < |fs|
    requires OpensSection(fs[i]) && fs[i].xhtml.Some? && FirstNumber(fs[i].xhtml.value) == Some(m)
    ensures PageFrom(fs, i, number, text) == Closed(number, text) + PageFrom(fs, i + 1, Some(m), "")
  {
  }

  /**
   * The open section is saved by the next section-opening fragment even when
   * its text is blank, whatever that fragment holds; at the end of the page
   * it is saved only when its text is not blank.
   */
  lemma {:induction false} OpenSectionSaved(fs: seq<Fragment>, j: nat, m: string, c: string)
    requires j <= |fs|
    requires j < |fs| ==> OpensSection(fs[j])
    ensures var rest := PageFrom(fs, j, Some(m), c);
      var section := Paragraf(m, Strip(c));
      (j < |fs| ==> |rest| > 0 && rest[0] == section)
      && (j == |fs| ==> rest == if section.zneni != [] then [section] else [])
  {
  }


  /**
   * A `null` xhtml ends the page: whatever follows that fragment is never
   * read, so replacing it changes nothing.
   */
  lemma {:induction false} AfterNullIgnored(fs: seq<Fragment>, gs: seq<Fragment>, i: nat, j: nat, number: Option<string>, text: string)
    requires i <= j < |fs| && fs[j].xhtml.None?
    ensures PageFrom(fs, i, number, text) == PageFrom(fs[..j + 1] + gs, i, number, text)
    decreases j - i
  {
    var hs := fs[..j + 1] + gs;
    assert hs[i] == fs[i];
    if i < j {
      var f := fs[i];
      if f.xhtml.Some? {
        if OpensSection(f) {
          var m := FirstNumber(f.xhtml.value);
          if m.Some? {
            AfterNullIgnored(fs, gs, i + 1, j, m, "");
          } else {
            AfterNullIgnored(fs, gs, i + 1, j, number, text);
          }
        } else {
          AfterNullIgnored(fs, gs, i + 1, j, number, text + StripTags(f.xhtml.value) + "\n");
        }
      }
    }
  }

  /**
   * A section-opening fragment without a digit saves the open section but
   * keeps it open, so the same section is saved again later: here at the
   * end of the page.
   */
  lemma {:induction false} DigitlessOpeningRepeats(x: string, n: string, t: string)
    requires NoDigits(x) && Strip(t) != []
    ensures PageFrom([Fragment(Some(ParagrafKind), Some(x))], 0, Some(n), t)
            == [Paragraf(n, Strip(t)), Paragraf(n, Strip(t))]
  {
  }
}
