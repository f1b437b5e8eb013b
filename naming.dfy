/**
 * File-name synthesis of the episode downloader: snake-casing of titles,
 * the zero-padded episode ordinal, the `%Y%m%d` date stamp and the file
 * name `<ordinal>_<channel>_<title>_<YYYYMMDD>.mp3` built from them.
 */
module Naming {

  import opened Decimal

  // ---------------------------------------------------------------------
  // Snake-casing: re.sub('[^A-Za-z0-9]+', '_', s.lower())

  /** The character class `[A-Za-z0-9]` of the substitution pattern. */
  predicate IsAlnum(c: char) {
    'A' <= c <= 'Z' || 'a' <= c <= 'z' || '0' <= c <= '9'
  }

  predicate IsUpper(c: char) {
    'A' <= c <= 'Z'
  }

  /** No two neighbouring characters of `r` are both `_`. */
  predicate NoDoubleUnderscore(r: string) {
    forall i, j | 0 <= i < |r| && j == i + 1 && j < |r| :: r[i] != '_' || r[j] != '_'
  }

  /** The characters snake-cased text is made of: `[a-z0-9_]`. */
  predicate IsSnakeChar(c: char) {
    'a' <= c <= 'z' || '0' <= c <= '9' || c == '_'
  }

  function LowerChar(c: char): (l: char)
    ensures !IsUpper(l)
    ensures IsAlnum(l) <==> IsAlnum(c)
  {
    if IsUpper(c) then (c as int + 32) as char else c
  }

  /** `str.lower()`, on the ASCII letters. */
  function Lower(s: string): (r: string)
    ensures |r| == |s|
  {
    seq(|s|, i requires 0 <= i < |s| => LowerChar(s[i]))
  }

  /** Drops the maximal run of characters outside `[A-Za-z0-9]` at the front of `s`. */
  function SkipRun(s: string): (r: string)
    ensures |r| <= |s|
    ensures r == [] || IsAlnum(r[0])
  {
    if s == [] || IsAlnum(s[0]) then s else SkipRun(s[1..])
  }

  lemma {:induction false} SkipRunSuffix(s: string)
    ensures SkipRun(s) == s[|s| - |SkipRun(s)|..]
  {
    if s != [] && !IsAlnum(s[0]) {
      SkipRunSuffix(s[1..]);
    }
  }

  /** `re.sub('[^A-Za-z0-9]+', '_', s)`: every maximal non-alphanumeric run becomes one `_`. */
  function CollapseRuns(s: string): string
    decreases |s|
  {
    if s == [] then ""
    else if IsAlnum(s[0]) then [s[0]] + CollapseRuns(s[1..])
    else "_" + CollapseRuns(SkipRun(s[1..]))
  }

  /** The first character of the substitution: `_` exactly when the input begins with a separator. */
  lemma CollapseRunsHead(s: string)
    ensures var r := CollapseRuns(s);
      && (s != [] <==> r != [])
      && (s != [] ==> (r[0] == '_' <==> !IsAlnum(s[0])))
      && (s != [] && IsAlnum(s[0]) ==> r[0] == s[0])
  {
  }

  /** Every character of the substitution is `_` or an alphanumeric character of its input. */
  lemma {:induction false} CollapseRunsAlphabet(s: string)
    ensures var r := CollapseRuns(s);
      && |r| <= |s|
      && forall i | 0 <= i < |r| :: r[i] == '_' || (IsAlnum(r[i]) && r[i] in s)
    decreases |s|
  {
    if s != [] {
      var r := CollapseRuns(s);
      var tail := if IsAlnum(s[0]) then s[1..] else SkipRun(s[1..]);
      CollapseRunsAlphabet(tail);
      SkipRunSuffix(s[1..]);
      assert r[1..] == CollapseRuns(tail);
      assert forall i | 0 <= i < |tail| :: tail[i] in s;
      forall i | 1 <= i < |r| ensures r[i] == '_' || (IsAlnum(r[i]) && r[i] in s) {
        assert r[i] == CollapseRuns(tail)[i - 1];
      }
    }
  }

  /** The substitution never yields two `_` in a row. */
  lemma {:induction false} CollapseRunsNoDouble(s: string)
    ensures NoDoubleUnderscore(CollapseRuns(s))
    decreases |s|
  {
    if s != [] {
      var r := CollapseRuns(s);
      var tail := if IsAlnum(s[0]) then s[1..] else SkipRun(s[1..]);
      CollapseRunsNoDouble(tail);
      CollapseRunsHead(tail);
      var rt := CollapseRuns(tail);
      assert r == [r[0]] + rt;
      forall i, j | 0 <= i < |r| && j == i + 1 && j < |r| ensures r[i] != '_' || r[j] != '_' {
        if i > 0 {
          assert r[i] == rt[i - 1] && r[j] == rt[j - 1];
        } else if r[0] == '_' {
          assert r[1] == rt[0];
        }
      }
    }
  }

  /** `convert_string_to_snake_cased`. */
  function SnakeCase(s: string): string {
    CollapseRuns(Lower(s))
  }

  /**
   * Snake-cased text is made of `[a-z0-9_]` only, never has two `_` in a
   * row, and is no longer than its input.
   */
  lemma SnakeCaseAlphabet(s: string)
    ensures var r := SnakeCase(s);
      && (forall i | 0 <= i < |r| :: IsSnakeChar(r[i]))
      && NoDoubleUnderscore(r)
      && |r| <= |s|
  {
    var lowered := Lower(s);
    CollapseRunsAlphabet(lowered);
    CollapseRunsNoDouble(lowered);
    var r := CollapseRuns(lowered);
    assert forall i | 0 <= i < |r| :: r[i] in lowered ==> !IsUpper(r[i]);
  }

  /**
   * A reference definition of the substitution as a left-to-right scan
   * that remembers whether it is inside a non-alphanumeric run.
   */
  function Scan(s: string, inRun: bool): string {
    if s == [] then ""
    else if IsAlnum(s[0]) then [s[0]] + Scan(s[1..], false)
    else if inRun then Scan(s[1..], true)
    else "_" + Scan(s[1..], true)
  }

  /** Inside a run, the scan ignores the rest of that run. */
  lemma {:induction false} ScanSkipsRun(s: string)
    ensures Scan(s, true) == Scan(SkipRun(s), true)
  {
    if s != [] && !IsAlnum(s[0]) {
      ScanSkipsRun(s[1..]);
    }
  }

  /** Collapsing runs agrees with the reference scan. */
  lemma {:induction false} CollapseRunsIsScan(s: string)
    ensures CollapseRuns(s) == Scan(s, false)
    decreases |s|
  {
    if s != [] {
      if IsAlnum(s[0]) {
        CollapseRunsIsScan(s[1..]);
      } else {
        var t := SkipRun(s[1..]);
        CollapseRunsIsScan(t);
        ScanSkipsRun(s[1..]);
        if t != [] {
          assert Scan(t, true) == Scan(t, false);
        }
      }
    }
  }

  /** Alphanumeric characters of `s`, in order. */
  function Alnums(s: string): string {
    if s == [] then "" else (if IsAlnum(s[0]) then [s[0]] else "") + Alnums(s[1..])
  }

  lemma {:induction false} SkipRunAlnums(s: string)
    ensures Alnums(SkipRun(s)) == Alnums(s)
  {
    if s != [] && !IsAlnum(s[0]) {
      SkipRunAlnums(s[1..]);
    }
  }

  /** The substitution keeps every alphanumeric character, in order, and adds none. */
  lemma {:induction false} CollapseRunsKeepsAlnums(s: string)
    ensures Alnums(CollapseRuns(s)) == Alnums(s)
    decreases |s|
  {
    if s != [] {
      if IsAlnum(s[0]) {
        CollapseRunsKeepsAlnums(s[1..]);
      } else {
        var t := SkipRun(s[1..]);
        CollapseRunsKeepsAlnums(t);
        SkipRunAlnums(s[1..]);
        assert CollapseRuns(s)[1..] == CollapseRuns(t);
      }
    }
  }

  /** Text the substitution leaves alone: separators are single `_` between alphanumerics. */
  predicate Collapsed(t: string) {
    (forall i | 0 <= i < |t| :: IsAlnum(t[i]) || t[i] == '_') &&
    NoDoubleUnderscore(t)
  }

  lemma {:induction false} CollapseRunsFixpoint(t: string)
    requires Collapsed(t)
    ensures CollapseRuns(t) == t
  {
    if t != [] {
      var rest := t[1..];
      assert Collapsed(rest) by {
        forall i, j | 0 <= i < |rest| && j == i + 1 && j < |rest|
          ensures rest[i] != '_' || rest[j] != '_'
        {
          assert rest[i] == t[i + 1] && rest[j] == t[j + 1];
        }
      }
      CollapseRunsFixpoint(rest);
      if IsAlnum(t[0]) {
        calc {
          CollapseRuns(t);
          [t[0]] + CollapseRuns(rest);
          [t[0]] + rest;
          t;
        }
      } else {
        assert rest == [] || IsAlnum(rest[0]);
        assert SkipRun(rest) == rest;
        calc {
          CollapseRuns(t);
          "_" + CollapseRuns(rest);
          { assert t[0] == '_'; }
          [t[0]] + rest;
          t;
        }
      }
    }
  }

  /** Snake-casing is idempotent. */
  lemma SnakeCaseIdempotent(s: string)
    ensures SnakeCase(SnakeCase(s)) == SnakeCase(s)
  {
    var r := SnakeCase(s);
    SnakeCaseAlphabet(s);
    assert Lower(r) == r;
    CollapseRunsFixpoint(r);
  }

  /** Snake-casing keeps the letters and digits, lower-cased and in order. */
  lemma SnakeCaseKeepsAlnums(s: string)
    ensures Alnums(SnakeCase(s)) == Alnums(Lower(s))
  {
    CollapseRunsKeepsAlnums(Lower(s));
  }

  /** A word of letters and digits passes through the substitution unchanged. */
  lemma {:induction false} CollapseWord(w: string, rest: string)
    requires forall i | 0 <= i < |w| :: IsAlnum(w[i])
    ensures CollapseRuns(w + rest) == w + CollapseRuns(rest)
  {
    if w != [] {
      var s := w + rest;
      assert s[0] == w[0] && IsAlnum(s[0]);
      assert s[1..] == w[1..] + rest;
      CollapseWord(w[1..], rest);
    } else {
      assert w + rest == rest;
    }
  }

  /** A whole run of separators before a word becomes a single `_`. */
  lemma CollapseSeparator(sep: string, rest: string)
    requires sep != [] && forall i | 0 <= i < |sep| :: !IsAlnum(sep[i])
    requires rest == [] || IsAlnum(rest[0])
    ensures CollapseRuns(sep + rest) == "_" + CollapseRuns(rest)
  {
    var s := sep + rest;
    assert s[0] == sep[0] && !IsAlnum(s[0]);
    assert s[1..] == sep[1..] + rest;
    SkipSeparators(sep[1..], rest);
    assert CollapseRuns(s) == "_" + CollapseRuns(SkipRun(s[1..]));
  }

  lemma {:induction false} SkipSeparators(sep: string, rest: string)
    requires forall i | 0 <= i < |sep| :: !IsAlnum(sep[i])
    requires rest == [] || IsAlnum(rest[0])
    ensures SkipRun(sep + rest) == rest
  {
    if sep != [] {
      assert (sep + rest)[1..] == sep[1..] + rest;
      SkipSeparators(sep[1..], rest);
    } else {
      assert sep + rest == rest;
    }
  }

  lemma SnakeCaseExamples()
    ensures SnakeCase("My Show") == "my_show"
    ensures SnakeCase("Ep! One") == "ep_one"
  {
    SnakeCaseMyShow();
    SnakeCaseEpOne();
  }

  lemma SnakeCaseMyShow()
    ensures SnakeCase("My Show") == "my_show"
  {
    CollapseExample("My Show", "my", " ", "show");
  }

  lemma SnakeCaseEpOne()
    ensures SnakeCase("Ep! One") == "ep_one"
  {
    CollapseExample("Ep! One", "ep", "! ", "one");
  }

  /** Two lower-case words with a run of separators between them. */
  lemma CollapseExample(s: string, w1: string, sep: string, w2: string)
    requires Lower(s) == w1 + sep + w2
    requires forall i | 0 <= i < |w1| :: IsAlnum(w1[i])
    requires forall i | 0 <= i < |w2| :: IsAlnum(w2[i])
    requires sep != [] && forall i | 0 <= i < |sep| :: !IsAlnum(sep[i])
    requires w2 != []
    ensures SnakeCase(s) == w1 + "_" + w2
  {
    CollapseWord(w2, "");
    assert w2 + "" == w2;
    CollapseSeparator(sep, w2);
    CollapseWord(w1, sep + w2);
    assert w1 + sep + w2 == w1 + (sep + w2);
  }

  // ---------------------------------------------------------------------
  // Ordinal and date fields

  /** The episode number field: `'0' * (3 - len(str(n))) + str(n)`. */
  function EpisodeNumber(n: nat): string {
    PadLeft(n, 3)
  }

  /**
   * The episode number field is digits denoting `n`: exactly three of them
   * up to 999, and from 1000 on exactly `str(n)`, unpadded and untruncated.
   */
  lemma EpisodeNumberWidth(n: nat)
    ensures var r := EpisodeNumber(n);
      && AllDigits(r) && Value(r) == n
      && (n <= 999 ==> |r| == 3)
      && (n >= 1000 ==> r == Show(n))
  {
    ShowLength(n, 3);
    PadLeftDigits(n, 3);
    if n >= 1000 {
      assert ZeroRun(3 - |Show(n)|) == "";
    }
  }

  datatype Date = Date(year: int, month: int, day: int)

  function DaysInMonth(year: int, month: int): int {
    if month == 2 then (if (year % 4 == 0 && year % 100 != 0) || year % 400 == 0 then 29 else 28)
    else if month == 4 || month == 6 || month == 9 || month == 11 then 30
    else 31
  }

  /** The dates Python's `datetime` can hold. */
  predicate ValidDate(d: Date) {
    1 <= d.year <= 9999 && 1 <= d.month <= 12 && 1 <= d.day <= DaysInMonth(d.year, d.month)
  }

  type CalendarDate = d: Date | ValidDate(d) witness Date(1970, 1, 1)

  /** `strftime('%Y%m%d')`: four-digit year, two-digit month, two-digit day. */
  function DateStamp(d: CalendarDate): string {
    PadLeft(d.year, 4) + PadLeft(d.month, 2) + PadLeft(d.day, 2)
  }

  /** The date stamp is eight digits from which year, month and day read back. */
  lemma DateStampReadsBack(d: CalendarDate)
    ensures var s := DateStamp(d);
      && |s| == 8 && AllDigits(s)
      && Value(s[..4]) == d.year && Value(s[4..6]) == d.month && Value(s[6..]) == d.day
  {
    ShowLength(d.year, 4);
    ShowLength(d.month, 2);
    ShowLength(d.day, 2);
    PadLeftDigits(d.year, 4);
    PadLeftDigits(d.month, 2);
    PadLeftDigits(d.day, 2);
    StampFields(PadLeft(d.year, 4), PadLeft(d.month, 2), PadLeft(d.day, 2));
  }

  lemma StampFields(y: string, m: string, d: string)
    requires AllDigits(y) && AllDigits(m) && AllDigits(d)
    requires |y| == 4 && |m| == 2 && |d| == 2
    ensures var s := y + m + d;
      && |s| == 8 && AllDigits(s) && s[..4] == y && s[4..6] == m && s[6..] == d
  {
    var s := y + m + d;
    assert s[..4] == y && s[4..6] == m && s[6..] == d;
  }

  // ---------------------------------------------------------------------
  // The file name

  /** Python's `sep.join(parts)`. */
  function Join(sep: string, parts: seq<string>): string {
    if |parts| == 0 then ""
    else if |parts| == 1 then parts[0]
    else parts[0] + sep + Join(sep, parts[1..])
  }

  /** `get_filename`, with the channel title it reads from the downloader passed in. */
  function FileName(channelTitle: string, episodeTitle: string, episodeNumber: string, publishDate: CalendarDate): string {
    Join("_", [episodeNumber, SnakeCase(channelTitle), SnakeCase(episodeTitle), DateStamp(publishDate)]) + ".mp3"
  }

  /** The length of the leading run of digits of a name. */
  function DigitPrefix(name: string): (k: nat)
    ensures k <= |name| && AllDigits(name[..k])
    ensures k < |name| ==> !IsDigit(name[k])
  {
    if name == [] || !IsDigit(name[0]) then 0
    else
      var k := 1 + DigitPrefix(name[1..]);
      assert name[..k] == [name[0]] + name[1..][..k - 1];
      k
  }

  /** The ordinal a file name starts with. */
  function OrdinalOf(name: string): nat {
    Value(name[..DigitPrefix(name)])
  }

  /** The date stamp a file name ends with, before `.mp3`. */
  function StampOf(name: string): string
    requires |name| >= 12
  {
    name[|name| - 12..|name| - 4]
  }

  lemma JoinFour(a: string, b: string, c: string, d: string)
    ensures Join("_", [a, b, c, d]) == a + "_" + b + "_" + c + "_" + d
  {
    assert [a, b, c, d][1..] == [b, c, d];
    assert [b, c, d][1..] == [c, d];
    assert [c, d][1..] == [d];
    assert Join("_", [d]) == d;
    assert Join("_", [c, d]) == c + "_" + d;
    assert Join("_", [b, c, d]) == b + "_" + (c + "_" + d);
  }

  /**
   * The file name is the four fields joined by `_` with `.mp3` appended;
   * both the ordinal and the publish date read back from it.
   */
  lemma FileNameShape(channelTitle: string, episodeTitle: string, n: nat, d: CalendarDate)
    ensures var name := FileName(channelTitle, episodeTitle, EpisodeNumber(n), d);
      && name == EpisodeNumber(n) + "_" + SnakeCase(channelTitle) + "_" + SnakeCase(episodeTitle) + "_" + DateStamp(d) + ".mp3"
      && name[|name| - 4..] == ".mp3"
      && name[..|EpisodeNumber(n)| + 1] == EpisodeNumber(n) + "_"
      && |name| >= 12 && StampOf(name) == DateStamp(d)
      && OrdinalOf(name) == n
  {
    var num, c, t, st := EpisodeNumber(n), SnakeCase(channelTitle), SnakeCase(episodeTitle), DateStamp(d);
    DateStampReadsBack(d);
    EpisodeNumberWidth(n);
    FileNameFields(channelTitle, episodeTitle, num, d);
    NameFields(num, c, t, st);
  }

  lemma NameFields(num: string, c: string, t: string, stamp: string)
    requires AllDigits(num) && |stamp| == 8
    ensures var name := num + "_" + c + "_" + t + "_" + stamp + ".mp3";
      && name[|name| - 4..] == ".mp3"
      && name[..|num| + 1] == num + "_"
      && |name| >= 12 && StampOf(name) == stamp
      && OrdinalOf(name) == Value(num)
  {
    var name := num + "_" + c + "_" + t + "_" + stamp + ".mp3";
    assert name[..|num|] == num;
    DigitsBeforeSeparator(name, num);
  }

  lemma DigitsBeforeSeparator(name: string, num: string)
    requires AllDigits(num) && |num| < |name| && name[..|num|] == num && name[|num|] == '_'
    ensures DigitPrefix(name) == |num| && OrdinalOf(name) == Value(num)
  {
  }

  /** File names of different ordinals differ, whatever the titles and dates. */
  lemma FileNameDistinct(c1: string, t1: string, n1: nat, d1: CalendarDate,
                         c2: string, t2: string, n2: nat, d2: CalendarDate)
    requires n1 != n2
    ensures FileName(c1, t1, EpisodeNumber(n1), d1) != FileName(c2, t2, EpisodeNumber(n2), d2)
  {
    FileNameShape(c1, t1, n1, d1);
    FileNameShape(c2, t2, n2, d2);
  }

  /** `get_filename` applied to fields already formatted. */
  lemma FileNameFields(channelTitle: string, episodeTitle: string, episodeNumber: string, d: CalendarDate)
    ensures FileName(channelTitle, episodeTitle, episodeNumber, d)
         == episodeNumber + "_" + SnakeCase(channelTitle) + "_" + SnakeCase(episodeTitle) + "_" + DateStamp(d) + ".mp3"
  {
    JoinFour(episodeNumber, SnakeCase(channelTitle), SnakeCase(episodeTitle), DateStamp(d));
  }

  lemma DateStampExample()
    ensures DateStamp(Date(2024, 3, 5)) == "20240305"
  {
    assert Show(2) == "2";
    assert Show(20) == "20";
    assert Show(202) == "202";
    assert Show(2024) == "2024";
    assert PadLeft(2024, 4) == "2024";
    assert PadLeft(3, 2) == "03";
    assert PadLeft(5, 2) == "05";
  }

  lemma EpisodeNumberExample()
    ensures EpisodeNumber(1) == "001"
  {
  }

  lemma ExampleJoined()
    ensures "001" + "_" + "my_show" + "_" + "ep_one" + "_" + "20240305" + ".mp3" == "001_my_show_ep_one_20240305.mp3"
  {
  }

  lemma FileNameExample()
    ensures FileName("My Show", "Ep! One", EpisodeNumber(1), Date(2024, 3, 5)) == "001_my_show_ep_one_20240305.mp3"
  {
    SnakeCaseExamples();
    DateStampExample();
    EpisodeNumberExample();
    FileNameFields("My Show", "Ep! One", "001", Date(2024, 3, 5));
    ExampleJoined();
  }
}
