/**
 * `AnniversaryTextSplitter.splitText` (rag.ts): a line-driven scan over
 * wiki-style text. A heading line `== X ==` sets the current title; while
 * the title is a month (`<digits>月`), each line that starts with
 * `<digits>日` sets the day and emits one entry
 * `"{title}{day} : {item}"` per `、`-separated item of its third
 * space-separated token. A qualifying line without a third token makes the
 * source throw; here that is a `Failure`.
 */
module Rag {
  import opened Wrappers
  import opened JsStrings

  /** `\d` of a regular expression: the ASCII digits only. */
  predicate IsDigit(c: char) {
    '0' <= c <= '9'
  }

  /** The characters the regular-expression `.` does not match. */
  predicate IsLineTerminator(c: char) {
    c == '\n' || c == '\r' || c == '\U{2028}' || c == '\U{2029}'
  }

  /** `line.match(/^== (.+) ==$/)` */
  predicate IsHeading(line: String) {
    && |line| >= 7
    && line[..3] == "== "
    && line[|line| - 3..] == " =="
    && forall k :: 3 <= k < |line| - 3 ==> !IsLineTerminator(line[k])
  }

  /** `title.match(/^\d+月$/)` */
  predicate IsMonthTitle(title: String) {
    && |title| >= 2
    && title[|title| - 1] == '月'
    && forall k :: 0 <= k < |title| - 1 ==> IsDigit(title[k])
  }

  /** The length of the run of digits that `s` starts with. */
  function LeadingDigits(s: String): (n: nat)
    decreases |s|
    ensures n <= |s|
    ensures forall k :: 0 <= k < n ==> IsDigit(s[k])
    ensures n < |s| ==> !IsDigit(s[n])
  {
    if s != [] && IsDigit(s[0]) then 1 + LeadingDigits(s[1..]) else 0
  }

  lemma LeadingDigitsAt(s: String, n: nat)
    requires n < |s| && !IsDigit(s[n])
    requires forall k :: 0 <= k < n ==> IsDigit(s[k])
    ensures LeadingDigits(s) == n
  {
  }

  /**
   * `line.match(/^\d+日.+/)`: `日` cannot be a digit, so the digit run before it
   * is the longest one, and `.+` needs one more character that is not a line terminator.
   */
  predicate IsDayLine(line: String) {
    var n := LeadingDigits(line);
    1 <= n && n + 1 < |line| && line[n] == '日' && !IsLineTerminator(line[n + 1])
  }

  /** The regular expression `^\d+日.+` matches `line` with `n` digits. */
  ghost predicate DayPatternAt(line: String, n: nat) {
    && 1 <= n && n + 1 < |line|
    && (forall k :: 0 <= k < n ==> IsDigit(line[k]))
    && line[n] == '日'
    && !IsLineTerminator(line[n + 1])
  }

  /** The day-line test agrees with every way the regular expression could match. */
  lemma DayLineMatchesPattern(line: String)
    ensures IsDayLine(line) <==> exists n: nat :: DayPatternAt(line, n)
  {
    if IsDayLine(line) {
      assert DayPatternAt(line, LeadingDigits(line));
    }
    if exists n: nat :: DayPatternAt(line, n) {
      var n: nat :| DayPatternAt(line, n);
      LeadingDigitsAt(line, n);
    }
  }

  /** A heading starts with `=`, so it is never a day line: the heading test has priority anyway. */
  lemma HeadingIsNotDayLine(line: String)
    requires IsHeading(line)
    ensures !IsDayLine(line)
  {
    assert line[0] == line[..3][0] == '=';
  }

  /** A heading has at least two space-separated tokens, the first being `==`. */
  lemma HeadingHasTitleToken(line: String)
    requires IsHeading(line)
    ensures |Split(line, " ")| >= 2 && Split(line, " ")[0] == "=="
  {
    assert line == "==" + [' '] + line[3..] by {
      assert line == line[..3] + line[3..];
    }
    SplitOnCharCons("==", ' ', line[3..]);
  }

  /** `line.split(" ")[1].trim()` of a heading line. */
  function HeadingTitle(line: String): String
    requires IsHeading(line)
  {
    HeadingHasTitleToken(line);
    Trim(Split(line, " ")[1])
  }

  /** A heading whose text has no space sets the title to that text, trimmed. */
  lemma HeadingTitleOfPlainHeading(text: String)
    requires |text| >= 1 && ' ' !in text
    requires forall k :: 0 <= k < |text| ==> !IsLineTerminator(text[k])
    ensures IsHeading("== " + text + " ==")
    ensures HeadingTitle("== " + text + " ==") == Trim(text)
  {
    var line := "== " + text + " ==";
    assert line[..3] == "== ";
    assert line[|line| - 3..] == " ==";
    forall k | 3 <= k < |line| - 3 ensures !IsLineTerminator(line[k]) {
      assert line[k] == text[k - 3];
    }
    assert line[3..] == text + [' '] + "==";
    HeadingHasTitleToken(line);
    SplitOnCharCons(text, ' ', "==");
    SplitOnCharNone("==", ' ');
    assert Split(line[3..], " ") == [text, "=="];
    assert line == "==" + [' '] + line[3..];
    SplitOnCharCons("==", ' ', line[3..]);
  }

  /** The variables of the scan: `title`, `day` and the `anniversaries` array. */
  datatype ScanState = ScanState(title: String, day: String, entries: seq<String>)

  /** Before the first line: `title = ""`, `day = ""`, `anniversaries = []`. */
  const Start := ScanState("", "", [])

  /** `line.split(" ")[2]` is undefined for this line, so reading `.split` of it throws. */
  datatype SplitError = MissingItemsToken(line: String)

  /** `items.split("、").map(a => `${title}${day} : ${a}`)` */
  function Entries(title: String, day: String, items: String): (entries: seq<String>)
    ensures |entries| == multiset(items)['、'] + 1
    ensures forall k :: 0 <= k < |entries| ==>
      |title + day + " : "| <= |entries[k]| && entries[k][..|title + day + " : "|] == title + day + " : "
  {
    var names := Split(items, "、");
    var prefix := title + day + " : ";
    SplitOnCharFields(items, '、');
    var entries := seq(|names|, k requires 0 <= k < |names| => prefix + names[k]);
    forall k | 0 <= k < |entries| ensures |prefix| <= |entries[k]| && entries[k][..|prefix|] == prefix {
      assert entries[k] == prefix + names[k];
    }
    entries
  }

  /** One iteration of the loop body on `line`. */
  function Step(st: ScanState, line: String): Result<ScanState, SplitError> {
    if IsHeading(line) then
      Success(st.(title := HeadingTitle(line)))
    else if IsMonthTitle(st.title) && IsDayLine(line) then
      var tokens := Split(line, " ");
      var day := tokens[0];
      if |tokens| < 3 then Failure(MissingItemsToken(line))
      else Success(ScanState(st.title, day, st.entries + Entries(st.title, day, tokens[2])))
    else
      Success(st)
  }

  /** The loop over `lines` from state `st`, stopping at the first line that throws. */
  function Run(st: ScanState, lines: seq<String>): Result<ScanState, SplitError>
    decreases |lines|
  {
    if lines == [] then Success(st)
    else
      match Step(st, lines[0])
      case Failure(e) => Failure(e)
      case Success(next) => Run(next, lines[1..])
  }

  /** What `splitText(text)` resolves to, or the error it throws. */
  function SplitAnniversaries(text: String): Result<seq<String>, SplitError> {
    match Run(Start, Split(text, "\n"))
    case Failure(e) => Failure(e)
    case Success(st) => Success(st.entries)
  }

  /** "<digits>月<digits>日…": a month title followed by a day token. */
  predicate StartsWithMonthDay(date: String) {
    var n := LeadingDigits(date);
    && 1 <= n < |date|
    && date[n] == '月'
    && var m := LeadingDigits(date[n + 1..]);
    && 1 <= m < |date| - n - 1
    && date[n + 1 + m] == '日'
  }

  /**
   * The shape of an emitted entry: three space-separated fields, a month and
   * day, then ":", then one item without `、`.
   */
  predicate IsEntry(e: String) {
    var fields := Split(e, " ");
    && |fields| == 3
    && StartsWithMonthDay(fields[0])
    && fields[1] == ":"
    && '、' !in fields[2]
  }

  /** The first token of a day line starts with its digits and `日` and has no space. */
  lemma DayTokenOfDayLine(line: String)
    requires IsDayLine(line)
    ensures var day := Split(line, " ")[0];
      && ' ' !in day
      && 1 <= LeadingDigits(day) < |day|
      && day[LeadingDigits(day)] == '日'
  {
    var n := LeadingDigits(line);
    var day := Split(line, " ")[0];
    FirstFieldOfSplit(line, ' ');
    assert |day| > n;
    assert day[..n] == line[..n];
    LeadingDigitsAt(day, n);
  }

  /** A month title has no space in it. */
  lemma MonthTitleHasNoSpace(title: String)
    requires IsMonthTitle(title)
    ensures ' ' !in title
  {
    forall k | 0 <= k < |title| ensures title[k] != ' ' {
      if k < |title| - 1 {
        assert IsDigit(title[k]);
      }
    }
  }

  /** A month title followed by a day token starts with a month and a day. */
  lemma MonthDayShape(title: String, day: String)
    requires IsMonthTitle(title)
    requires 1 <= LeadingDigits(day) < |day| && day[LeadingDigits(day)] == '日'
    ensures StartsWithMonthDay(title + day)
  {
    var date := title + day;
    LeadingDigitsAt(date, |title| - 1);
    assert date[|title|..] == day;
  }

  /** `date + " : " + item` splits on spaces into its three parts when neither part has a space. */
  lemma EntryFields(date: String, item: String)
    requires ' ' !in date && ' ' !in item
    ensures Split(date + " : " + item, " ") == [date, ":", item]
  {
    assert date + " : " + item == date + [' '] + (":" + [' '] + item);
    SplitOnCharCons(date, ' ', ":" + [' '] + item);
    SplitOnCharCons(":", ' ', item);
    SplitOnCharNone(item, ' ');
  }

  /** An entry built from a month title, a day token and an item has the entry shape. */
  lemma EntryShape(title: String, day: String, item: String)
    requires IsMonthTitle(title)
    requires ' ' !in day && 1 <= LeadingDigits(day) < |day| && day[LeadingDigits(day)] == '日'
    requires ' ' !in item && '、' !in item
    ensures IsEntry(title + day + " : " + item)
  {
    MonthTitleHasNoSpace(title);
    EntryFields(title + day, item);
    MonthDayShape(title, day);
  }

  /** Every entry of a qualifying day line has the entry shape. */
  lemma EntriesShape(title: String, line: String)
    requires IsMonthTitle(title) && IsDayLine(line) && |Split(line, " ")| >= 3
    ensures var tokens := Split(line, " ");
      forall k :: 0 <= k < |Entries(title, tokens[0], tokens[2])| ==>
        IsEntry(Entries(title, tokens[0], tokens[2])[k])
  {
    var tokens := Split(line, " ");
    var names := Split(tokens[2], "、");
    DayTokenOfDayLine(line);
    ContainsChar(tokens[2], ' ');
    forall k | 0 <= k < |names| ensures IsEntry(Entries(title, tokens[0], tokens[2])[k]) {
      ContainsChar(names[k], '、');
      if ' ' in names[k] {
        JoinHasPartChars(names, "、", k, ' ');
      }
      EntryShape(title, tokens[0], names[k]);
    }
  }

  /**
   * A step only ever appends: a heading changes the title alone, a line that
   * is neither a heading nor a qualifying day line changes nothing, and only
   * a qualifying day line adds entries.
   */
  lemma StepOnlyAppends(st: ScanState, line: String)
    ensures Step(st, line).Success? ==>
      && |st.entries| <= |Step(st, line).value.entries|
      && Step(st, line).value.entries[..|st.entries|] == st.entries
    ensures IsHeading(line) ==> Step(st, line) == Success(ScanState(HeadingTitle(line), st.day, st.entries))
    ensures !IsHeading(line) && !(IsMonthTitle(st.title) && IsDayLine(line)) ==> Step(st, line) == Success(st)
    ensures Step(st, line).Success? && Step(st, line).value.entries != st.entries ==>
      !IsHeading(line) && IsMonthTitle(st.title) && IsDayLine(line)
  {
  }

  /** A step throws exactly on a qualifying day line that has fewer than three tokens. */
  lemma StepFails(st: ScanState, line: String)
    ensures Step(st, line).Failure? <==>
      !IsHeading(line) && IsMonthTitle(st.title) && IsDayLine(line) && |Split(line, " ")| < 3
    ensures Step(st, line).Failure? ==> Step(st, line).error == MissingItemsToken(line)
  {
  }

  /**
   * A qualifying day line sets the day to its first token and appends one
   * entry per `、`-separated item of its third token, in item order.
   */
  lemma StepDayLine(st: ScanState, line: String)
    requires !IsHeading(line) && IsMonthTitle(st.title) && IsDayLine(line)
    requires |Split(line, " ")| >= 3
    ensures var tokens := Split(line, " ");
      var items := Split(tokens[2], "、");
      && Step(st, line).Success?
      && Step(st, line).value.title == st.title
      && Step(st, line).value.day == tokens[0]
      && |Step(st, line).value.entries| == |st.entries| + multiset(tokens[2])['、'] + 1
      && forall k :: 0 <= k < |items| ==>
           Step(st, line).value.entries[|st.entries| + k] == st.title + tokens[0] + " : " + items[k]
  {
    var tokens := Split(line, " ");
    SplitOnCharCount(tokens[2], '、');
  }

  /** The scan over two blocks of lines is the scan over the first continued by the scan over the second. */
  lemma {:induction false} RunAppend(st: ScanState, a: seq<String>, b: seq<String>)
    ensures Run(st, a + b) ==
      match Run(st, a)
      case Failure(e) => Failure(e)
      case Success(mid) => Run(mid, b)
    decreases |a|
  {
    if a == [] {
      assert a + b == b;
    } else {
      assert (a + b)[0] == a[0];
      assert (a + b)[1..] == a[1..] + b;
      match Step(st, a[0])
      case Failure(e) =>
      case Success(next) => RunAppend(next, a[1..], b);
    }
  }

  /** Earlier entries are never modified: a scan only appends to them. */
  lemma {:induction false} RunOnlyAppends(st: ScanState, lines: seq<String>)
    ensures Run(st, lines).Success? ==>
      && |st.entries| <= |Run(st, lines).value.entries|
      && Run(st, lines).value.entries[..|st.entries|] == st.entries
    decreases |lines|
  {
    if lines != [] {
      StepOnlyAppends(st, lines[0]);
      match Step(st, lines[0])
      case Failure(e) =>
      case Success(next) =>
        RunOnlyAppends(next, lines[1..]);
        assert next.entries[..|st.entries|] == st.entries;
    }
  }

  /**
   * As long as no heading sets a month title, lines emit nothing and nothing
   * throws: headings may change the title, but never to a month.
   */
  lemma {:induction false} RunWithoutMonth(st: ScanState, lines: seq<String>)
    requires !IsMonthTitle(st.title)
    requires forall k :: 0 <= k < |lines| && IsHeading(lines[k]) ==> !IsMonthTitle(HeadingTitle(lines[k]))
    ensures Run(st, lines).Success?
    ensures Run(st, lines).value.entries == st.entries
    ensures !IsMonthTitle(Run(st, lines).value.title)
    decreases |lines|
  {
    if lines != [] {
      var next := Step(st, lines[0]).value;
      assert IsHeading(lines[0]) ==> !IsMonthTitle(HeadingTitle(lines[0]));
      assert forall k :: 0 <= k < |lines[1..]| ==> lines[1..][k] == lines[k + 1];
      RunWithoutMonth(next, lines[1..]);
    }
  }

  /** The scan throws only for a line of the input that is a day line with fewer than three tokens. */
  lemma {:induction false} RunFails(st: ScanState, lines: seq<String>)
    ensures Run(st, lines).Failure? ==>
      var line := Run(st, lines).error.line;
      line in lines && IsDayLine(line) && !IsHeading(line) && |Split(line, " ")| < 3
    decreases |lines|
  {
    if lines != [] {
      match Step(st, lines[0])
      case Failure(e) =>
      case Success(next) =>
        RunFails(next, lines[1..]);
    }
  }

  /** Every entry the scan emits has the entry shape. */
  lemma {:induction false} RunEntriesShape(st: ScanState, lines: seq<String>)
    requires forall k :: 0 <= k < |st.entries| ==> IsEntry(st.entries[k])
    ensures Run(st, lines).Success? ==>
      forall k :: 0 <= k < |Run(st, lines).value.entries| ==> IsEntry(Run(st, lines).value.entries[k])
    decreases |lines|
  {
    if lines != [] {
      var line := lines[0];
      match Step(st, line)
      case Failure(e) =>
      case Success(next) =>
        if !IsHeading(line) && IsMonthTitle(st.title) && IsDayLine(line) {
          var tokens := Split(line, " ");
          EntriesShape(st.title, line);
          var added := Entries(st.title, tokens[0], tokens[2]);
          assert next.entries == st.entries + added;
        }
        RunEntriesShape(next, lines[1..]);
    }
  }

  /**
   * `splitText(text)`: the loop over the lines of `text`, reassigning `title`
   * and `day` and appending to the local sequence `anniversaries`.
   */
  method SplitText(text: String) returns (result: Result<seq<String>, SplitError>)
    ensures result == SplitAnniversaries(text)
    ensures result.Success? ==> forall k :: 0 <= k < |result.value| ==> IsEntry(result.value[k])
  {
    var lines := Split(text, "\n");
    var title: String := "";
    var day: String := "";
    var anniversaries: seq<String> := [];
    for i := 0 to |lines|
      invariant Run(ScanState(title, day, anniversaries), lines[i..]) == Run(Start, lines)
    {
      var line := lines[i];
      assert lines[i..][1..] == lines[i + 1..];
      if IsHeading(line) {
        title := HeadingTitle(line);
      } else if IsMonthTitle(title) && IsDayLine(line) {
        var tokens := Split(line, " ");
        day := tokens[0];
        if |tokens| < 3 {
          return Failure(MissingItemsToken(line));
        }
        anniversaries := anniversaries + Entries(title, day, tokens[2]);
      }
    }
    RunEntriesShape(Start, lines);
    return Success(anniversaries);
  }

  /** Three fields joined by a character none of them contains split back into those fields. */
  lemma ThreeFields(a: String, b: String, c: String, sep: char)
    requires sep !in a && sep !in b && sep !in c
    ensures Split(a + [sep] + b + [sep] + c, [sep]) == [a, b, c]
  {
    var rest := b + [sep] + c;
    assert a + [sep] + b + [sep] + c == a + [sep] + rest;
    SplitOnCharCons(b, sep, c);
    SplitOnCharNone(c, sep);
    assert SplitOn(rest, [sep]) == [b, c];
    SplitOnCharCons(a, sep, rest);
  }

  /** Two fields joined by a character neither contains split back into those fields. */
  lemma TwoFields(a: String, b: String, sep: char)
    requires sep !in a && sep !in b
    ensures Split(a + [sep] + b, [sep]) == [a, b]
  {
    SplitOnCharCons(a, sep, b);
    SplitOnCharNone(b, sep);
  }

  /** A heading around a text without spaces or trimmable characters sets the title to that text. */
  lemma StepOnPlainHeading(st: ScanState, text: String)
    requires |text| >= 1 && ' ' !in text
    requires forall k :: 0 <= k < |text| ==> !IsLineTerminator(text[k]) && !IsTrimmable(text[k])
    ensures Step(st, "== " + text + " ==") == Success(st.(title := text))
  {
    HeadingTitleOfPlainHeading(text);
    TrimUntrimmed(text);
  }

  /** A line that starts with a digit is not a heading. */
  lemma DigitLineIsNotHeading(line: String)
    requires |line| >= 1 && IsDigit(line[0])
    ensures !IsHeading(line)
  {
    if |line| >= 3 {
      assert line[..3][0] == line[0];
    }
  }

  /** A day line of the form `<day> <word> <items>` read under a month title. */
  lemma StepOnSpacedDayLine(st: ScanState, day: String, word: String, items: String)
    requires IsMonthTitle(st.title)
    requires ' ' !in day && ' ' !in word && ' ' !in items
    requires |day| >= 1 && IsDigit(day[0]) && IsDayLine(day + " " + word + " " + items)
    ensures Step(st, day + " " + word + " " + items)
         == Success(ScanState(st.title, day, st.entries + Entries(st.title, day, items)))
  {
    var line := day + " " + word + " " + items;
    assert line[0] == day[0];
    DigitLineIsNotHeading(line);
    ThreeFields(day, word, items, ' ');
  }

  /** The entries of the February day line. */
  lemma FebruaryEntries(title: String)
    requires title == "2月"
    ensures Entries(title, "22日", "猫の日" + "、" + "忍者の日") == ["2月22日 : 猫の日", "2月22日 : 忍者の日"]
  {
    TwoFields("猫の日", "忍者の日", '、');
    assert "2月" + "22日" + " : " + "猫の日" == "2月22日 : 猫の日";
    assert "2月" + "22日" + " : " + "忍者の日" == "2月22日 : 忍者の日";
  }

  /** A text of a heading and one more line: the scan is the two steps in turn. */
  lemma ScanHeadingThenLine(heading: String, line: String, mid: ScanState)
    requires '\n' !in heading && '\n' !in line
    requires Step(Start, heading) == Success(mid)
    ensures SplitAnniversaries(heading + "\n" + line) ==
      match Step(mid, line)
      case Failure(e) => Failure(e)
      case Success(last) => Success(last.entries)
  {
    TwoFields(heading, line, '\n');
    var lines := [heading, line];
    assert lines[1..] == [line];
    assert Run(Start, lines) == Run(mid, [line]);
    assert [line][1..] == [];
    match Step(mid, line)
    case Failure(e) =>
    case Success(last) =>
      assert Run(mid, [line]) == Run(last, []);
  }

  /** The February heading line of the examples below. */
  const FebruaryTitleLine: String := "== " + "2月" + " =="

  /** A February day line listing two anniversaries. */
  const CatAndNinjaDayLine: String := "22日" + " " + "-" + " " + ("猫の日" + "、" + "忍者の日")

  /** A February day line with no space after the day. */
  const UnspacedDayLine: String := "22日猫の日"

  /** A heading that is not a month. */
  const OverviewTitleLine: String := "== " + "概要" + " =="

  /** A day line under the overview heading. */
  const CatDayLine: String := "22日 - 猫の日"

  /** None of the example lines holds a line break. */
  lemma ExampleLinesHaveNoBreak()
    ensures '\n' !in FebruaryTitleLine && '\n' !in CatAndNinjaDayLine && '\n' !in UnspacedDayLine
    ensures '\n' !in OverviewTitleLine && '\n' !in CatDayLine
  {
  }

  /** The two-item February day line is a day line. */
  lemma FebruaryDayLineQualifies()
    ensures IsDayLine(CatAndNinjaDayLine)
  {
    var line := CatAndNinjaDayLine;
    assert line[0] == '2' && line[1] == '2' && line[2] == '日' && line[3] == ' ';
    LeadingDigitsAt(line, 2);
  }

  /** The February heading sets the title to `2月`. */
  lemma FebruaryHeading(st: ScanState)
    ensures Step(st, FebruaryTitleLine) == Success(st.(title := "2月"))
  {
    StepOnPlainHeading(st, "2月");
  }

  /** Under `2月`, the two-item day line emits one entry per item. */
  lemma FebruaryDayLine(st: ScanState)
    requires st.title == "2月"
    ensures var last := Step(st, CatAndNinjaDayLine);
      && last.Success? && last.value.title == "2月" && last.value.day == "22日"
      && last.value.entries == st.entries + ["2月22日 : 猫の日", "2月22日 : 忍者の日"]
  {
    FebruaryDayLineQualifies();
    assert IsMonthTitle(st.title);
    StepOnSpacedDayLine(st, "22日", "-", "猫の日" + "、" + "忍者の日");
    FebruaryEntries(st.title);
  }

  /** Under `2月`, the day line with no space after the day throws. */
  lemma UnspacedDayLineThrows(st: ScanState)
    requires st.title == "2月"
    ensures Step(st, UnspacedDayLine) == Failure(MissingItemsToken(UnspacedDayLine))
  {
    var line := UnspacedDayLine;
    assert IsMonthTitle(st.title);
    DigitLineIsNotHeading(line);
    assert line[0] == '2' && line[1] == '2' && line[2] == '日' && line[3] == '猫';
    LeadingDigitsAt(line, 2);
    SplitOnCharNone(line, ' ');
  }

  /** The overview heading sets the title to `概要`. */
  lemma OverviewHeading(st: ScanState)
    ensures Step(st, OverviewTitleLine) == Success(st.(title := "概要"))
  {
    StepOnPlainHeading(st, "概要");
  }

  /** Under `概要`, a day line changes nothing. */
  lemma DayLineOutsideMonth(st: ScanState)
    requires st.title == "概要"
    ensures Step(st, CatDayLine) == Success(st)
  {
    DigitLineIsNotHeading(CatDayLine);
    assert !IsMonthTitle(st.title);
  }

  /** A February heading followed by one day line with two items gives two entries. */
  lemma SplitAnniversariesFebruary()
    ensures SplitAnniversaries(FebruaryTitleLine + "\n" + CatAndNinjaDayLine)
         == Success(["2月22日 : 猫の日", "2月22日 : 忍者の日"])
  {
    ExampleLinesHaveNoBreak();
    var mid := Start.(title := "2月");
    FebruaryHeading(Start);
    FebruaryDayLine(mid);
    assert [] + ["2月22日 : 猫の日", "2月22日 : 忍者の日"] == ["2月22日 : 猫の日", "2月22日 : 忍者の日"];
    ScanHeadingThenLine(FebruaryTitleLine, CatAndNinjaDayLine, mid);
  }

  /** A qualifying day line without a third token makes the split throw. */
  lemma SplitAnniversariesMissingItems()
    ensures SplitAnniversaries(FebruaryTitleLine + "\n" + UnspacedDayLine)
         == Failure(MissingItemsToken(UnspacedDayLine))
  {
    ExampleLinesHaveNoBreak();
    var mid := Start.(title := "2月");
    FebruaryHeading(Start);
    UnspacedDayLineThrows(mid);
    ScanHeadingThenLine(FebruaryTitleLine, UnspacedDayLine, mid);
  }

  /** Day lines under a heading that is not a month emit nothing. */
  lemma SplitAnniversariesOutsideMonth()
    ensures SplitAnniversaries(OverviewTitleLine + "\n" + CatDayLine) == Success([])
  {
    ExampleLinesHaveNoBreak();
    var mid := Start.(title := "概要");
    OverviewHeading(Start);
    DayLineOutsideMonth(mid);
    ScanHeadingThenLine(OverviewTitleLine, CatDayLine, mid);
  }
}
