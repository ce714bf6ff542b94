/**
 * `extract_data_from_filename`: the episode number and title a transcript's
 * filename stands for. Two fixed patterns are matched at the start of the
 * name, `(\d+)-` for the number and `\d+-#\d+\s*-\s*(.*)` for the title; they
 * are written out here as scanners over the name.
 */
module FilenameParser {
  import opened Wrappers
  import opened Text

  datatype Parsed = Parsed(number: int, title: string)

  /** The name starts with one or more digits followed by '-'. */
  predicate HasNumberPrefix(name: string)
  {
    exists k :: 0 < k < |name| && AllDigits(name[..k]) && name[k] == '-'
  }

  /** The name starts with one or more digits followed by "-#". */
  predicate HasHashMarker(t: string)
  {
    exists k :: 0 < k && k + 1 < |t| && AllDigits(t[..k]) && t[k] == '-' && t[k + 1] == '#'
  }

  /** `re.match(r"(\d+)-", name)`, with `int()` applied to the group. */
  function NumberPrefix(name: string): (r: Option<nat>)
    ensures r.Some? <==> HasNumberPrefix(name)
  {
    var k := LeadingDigits(name);
    if 0 < k < |name| && name[k] == '-' then Some(DecimalValue(name[..k])) else None
  }

  /** `name[:-4]`: the name without its last four characters ("" when it is shorter). */
  function Truncated(name: string): (r: string)
    ensures |r| == if |name| < 4 then 0 else |name| - 4
    ensures r == name[..|r|]
  {
    if |name| < 4 then [] else name[..|name| - 4]
  }

  /** What `(.*)` captures: everything up to the first line feed. */
  function Line(s: string): (r: string)
    ensures '\n' !in r
    ensures |r| <= |s| && r == s[..|r|]
    ensures |r| < |s| ==> s[|r|] == '\n'
  {
    if s == [] || s[0] == '\n' then [] else [s[0]] + Line(s[1..])
  }

  /** `\d+`: what follows a non-empty leading run of digits. */
  function AfterDigitRun(s: string): Option<string>
  {
    var n := LeadingDigits(s);
    if n == 0 then None else Some(s[n..])
  }

  /** A literal character of the pattern. */
  function AfterChar(s: string, c: char): Option<string>
  {
    if s != [] && s[0] == c then Some(s[1..]) else None
  }

  /** `\s*`: what follows the leading run of whitespace. */
  function AfterSpaces(s: string): (r: string)
    ensures |r| <= |s| && r == s[|s| - |r|..] && AllSpace(s[..|s| - |r|])
    ensures r == [] || !IsSpace(r[0])
  {
    s[LeadingSpaces(s)..]
  }

  /** `\s*-\s*(.*)`: the group captured after the number of the marker. */
  function DashTitle(s: string): (r: Option<string>)
    ensures r.Some? ==> '\n' !in r.value && (r.value == [] || !IsSpace(r.value[0]))
  {
    var s1 :- AfterChar(AfterSpaces(s), '-');
    Some(Line(AfterSpaces(s1)))
  }

  /** `re.match(r"\d+-#\d+\s*-\s*(.*)", t)`: the captured group when the pattern matches. */
  function HashTitle(t: string): (r: Option<string>)
    ensures r.Some? ==> '\n' !in r.value && (r.value == [] || !IsSpace(r.value[0]))
  {
    var s1 :- AfterDigitRun(t);
    var s2 :- AfterChar(s1, '-');
    var s3 :- AfterChar(s2, '#');
    var s4 :- AfterDigitRun(s3);
    DashTitle(s4)
  }

  /** The title pattern only matches behind a "<digits>-#" marker. */
  lemma HashTitleNeedsMarker(t: string)
    ensures HashTitle(t).Some? ==> HasHashMarker(t)
  {
    var k := LeadingDigits(t);
    if HashTitle(t).Some? {
      assert t[k..][0] == t[k] && t[k..][1] == t[k + 1];
    }
  }

  /**
   * The number part of `extract_data_from_filename(name, index)`: the value
   * of a leading digit run ended by '-', or else `index` (0 when it is `None`).
   */
  function EpisodeNumber(name: string, index: Option<int>): (n: int)
    ensures !HasNumberPrefix(name) ==> n == index.GetOr(0)
    ensures HasNumberPrefix(name) ==> n >= 0
  {
    match NumberPrefix(name)
    case Some(v) =>
      assert name[..LeadingDigits(name)] == name[..LeadingDigits(name)];
      v
    case None => index.GetOr(0)
  }

  /**
   * The title part of `extract_data_from_filename`: the name without its last
   * four characters, reduced to the stripped text after the
   * "<digits>-#<digits> - " marker when the title pattern matches.
   */
  function Title(name: string): (title: string)
    ensures !HasHashMarker(Truncated(name)) ==> title == Truncated(name)
  {
    var t := Truncated(name);
    HashTitleNeedsMarker(t);
    match HashTitle(t)
    case Some(g) => Strip(g)
    case None => t
  }

  /** `extract_data_from_filename(name, index)`. */
  function ExtractData(name: string, index: Option<int>): (r: Parsed)
    ensures HasNumberPrefix(name) ==> r.number == NumberPrefix(name).value
    ensures !HasNumberPrefix(name) ==> r.number == index.GetOr(0)
    ensures !HasHashMarker(Truncated(name)) ==> r.title == Truncated(name)
  {
    Parsed(EpisodeNumber(name, index), Title(name))
  }

  /**
   * A name that starts with digits and '-' has their decimal value as its
   * number, whatever index is passed.
   */
  lemma NumberOfDigitPrefix(ds: string, rest: string, index: Option<int>)
    requires |ds| > 0 && AllDigits(ds)
    ensures EpisodeNumber(ds + ['-'] + rest, index) == DecimalValue(ds)
  {
    var name := ds + ['-'] + rest;
    assert name[..|ds|] == ds;
    LeadingDigitsOf(name, |ds|);
  }

  lemma {:induction false} LineWithoutNewline(s: string)
    requires '\n' !in s
    ensures Line(s) == s
  {
    if s != [] {
      LineWithoutNewline(s[1..]);
    }
  }

  lemma AfterDigitRunOf(ds: string, s: string)
    requires |ds| > 0 && AllDigits(ds)
    requires s == [] || !IsDigit(s[0])
    ensures AfterDigitRun(ds + s) == Some(s)
  {
    assert (ds + s)[..|ds|] == ds;
    LeadingDigitsOf(ds + s, |ds|);
  }

  lemma AfterSpacesOf(ws: string, s: string)
    requires AllSpace(ws)
    ensures AfterSpaces(ws + s) == AfterSpaces(s)
  {
    var l := LeadingSpaces(s);
    assert (ws + s)[..|ws| + l] == ws + s[..l];
    LeadingSpacesOf(ws + s, |ws| + l);
  }

  /** `\s*-\s*(.*)` on "<spaces>-<spaces><rest>". */
  lemma DashTitleOfPattern(ws1: string, ws2: string, rest: string)
    requires AllSpace(ws1) && AllSpace(ws2)
    ensures DashTitle(ws1 + (['-'] + (ws2 + rest))) == Some(Line(AfterSpaces(rest)))
  {
    var s1 := ws2 + rest;
    AfterSpacesOf(ws1, ['-'] + s1);
    LeadingSpacesOf(['-'] + s1, 0);
    assert AfterSpaces(['-'] + s1) == ['-'] + s1;
    assert (['-'] + s1)[1..] == s1;
    AfterSpacesOf(ws2, rest);
  }

  /** The stages of the title pattern on "<digits>-#<digits><spaces>-<spaces><rest>". */
  lemma HashTitleOfPattern(ds1: string, ds2: string, ws1: string, ws2: string, rest: string)
    requires |ds1| > 0 && AllDigits(ds1) && |ds2| > 0 && AllDigits(ds2)
    requires AllSpace(ws1) && AllSpace(ws2)
    ensures HashTitle(ds1 + (['-'] + (['#'] + (ds2 + (ws1 + (['-'] + (ws2 + rest)))))))
         == Some(Line(AfterSpaces(rest)))
  {
    var s4 := ws1 + (['-'] + (ws2 + rest));
    var s3 := ds2 + s4;
    var s2 := ['#'] + s3;
    var s1 := ['-'] + s2;
    AfterDigitRunOf(ds1, s1);
    assert AfterChar(s1, '-') == Some(s2) by {
      assert s1[1..] == s2;
    }
    assert AfterChar(s2, '#') == Some(s3) by {
      assert s2[1..] == s3;
    }
    assert s4 == [] || !IsDigit(s4[0]);
    AfterDigitRunOf(ds2, s4);
    DashTitleOfPattern(ws1, ws2, rest);
  }

  /** `s` is "<spaces>-<rest>", the shape `\s*-` needs at its start. */
  predicate DashShaped(s: string, ws: string, rest: string)
  {
    AllSpace(ws) && s == ws + (['-'] + rest)
  }

  /** `t` is "<digits>-#<digits><spaces>-<rest>", the shape `\d+-#\d+\s*-` needs at its start. */
  predicate HashShaped(t: string, ds1: string, ds2: string, ws: string, rest: string)
  {
    && |ds1| > 0 && AllDigits(ds1) && |ds2| > 0 && AllDigits(ds2)
    && AllSpace(ws) && t == ds1 + (['-'] + (['#'] + (ds2 + (ws + (['-'] + rest)))))
  }

  /** On a string of its shape, `\s*-\s*(.*)` captures the first line of `rest` after its spaces. */
  lemma DashTitleCapture(s: string, ws: string, rest: string)
    requires DashShaped(s, ws, rest)
    ensures DashTitle(s) == Some(Line(AfterSpaces(rest)))
  {
    assert [] + rest == rest;
    DashTitleOfPattern(ws, [], rest);
  }

  /** `\s*-\s*(.*)` matches exactly the strings of its shape. */
  lemma DashTitleMatches(s: string)
    ensures DashTitle(s).Some? <==> exists ws, rest :: DashShaped(s, ws, rest)
  {
    if DashTitle(s).Some? {
      var k := LeadingSpaces(s);
      assert AfterSpaces(s) == s[k..];
      assert s[k..] != [] && s[k..][0] == '-';
      assert DashShaped(s, s[..k], s[k + 1..]) by {
        assert s == s[..k] + (['-'] + s[k + 1..]);
      }
    } else if exists ws, rest :: DashShaped(s, ws, rest) {
      var ws, rest :| DashShaped(s, ws, rest);
      DashTitleCapture(s, ws, rest);
      assert false;
    }
  }

  /** On a string of its shape, the title pattern captures what its tail captures on `rest`. */
  lemma HashTitleCapture(t: string, ds1: string, ds2: string, ws: string, rest: string)
    requires HashShaped(t, ds1, ds2, ws, rest)
    ensures HashTitle(t) == Some(Line(AfterSpaces(rest)))
  {
    assert [] + rest == rest;
    HashTitleOfPattern(ds1, ds2, ws, [], rest);
  }

  /** The title pattern matches exactly the strings of its shape. */
  lemma HashTitleMatches(t: string)
    ensures HashTitle(t).Some? <==> exists ds1, ds2, ws, rest :: HashShaped(t, ds1, ds2, ws, rest)
  {
    if HashTitle(t).Some? {
      HashShapeOfMatch(t);
    } else if exists ds1, ds2, ws, rest :: HashShaped(t, ds1, ds2, ws, rest) {
      var ds1, ds2, ws, rest :| HashShaped(t, ds1, ds2, ws, rest);
      HashTitleCapture(t, ds1, ds2, ws, rest);
      assert false;
    }
  }

  /** A string the title pattern matches has its shape. */
  lemma HashShapeOfMatch(t: string)
    requires HashTitle(t).Some?
    ensures exists ds1, ds2, ws, rest :: HashShaped(t, ds1, ds2, ws, rest)
  {
    var d1, d2 := HashTitleStages(t);
    var s4 := t[d1 + 2..][d2..];
    DashTitleMatches(s4);
    var ws, rest :| DashShaped(s4, ws, rest);
    HashShapeOfStages(t, d1, d2, ws, rest);
  }

  /** Where the stages of the title pattern end on a string it matches. */
  lemma HashTitleStages(t: string) returns (d1: nat, d2: nat)
    requires HashTitle(t).Some?
    ensures 0 < d1 && d1 + 2 <= |t| && AllDigits(t[..d1]) && t[d1] == '-' && t[d1 + 1] == '#'
    ensures 0 < d2 <= |t| - d1 - 2 && AllDigits(t[d1 + 2..][..d2])
    ensures HashTitle(t) == DashTitle(t[d1 + 2..][d2..])
  {
    d1 := LeadingDigits(t);
    var s1 := t[d1..];
    assert s1 != [] && s1[0] == '-';
    var s2 := s1[1..];
    assert s2 != [] && s2[0] == '#';
    var s3 := s2[1..];
    assert s3 == t[d1 + 2..];
    d2 := LeadingDigits(s3);
  }

  /** Reassembling the stages the title pattern went through gives its shape. */
  lemma HashShapeOfStages(t: string, d1: nat, d2: nat, ws: string, rest: string)
    requires 0 < d1 && d1 + 2 <= |t| && AllDigits(t[..d1]) && t[d1] == '-' && t[d1 + 1] == '#'
    requires 0 < d2 <= |t| - d1 - 2 && AllDigits(t[d1 + 2..][..d2])
    requires DashShaped(t[d1 + 2..][d2..], ws, rest)
    ensures HashShaped(t, t[..d1], t[d1 + 2..][..d2], ws, rest)
  {
    var s3 := t[d1 + 2..];
    assert s3 == s3[..d2] + s3[d2..];
    assert t == t[..d1] + (['-'] + (['#'] + s3));
  }

  /**
   * A name whose truncation does not have the title pattern's shape keeps
   * the truncation as its title.
   */
  lemma TitleUnmatched(name: string)
    requires forall ds1, ds2, ws, rest :: !HashShaped(Truncated(name), ds1, ds2, ws, rest)
    ensures Title(name) == Truncated(name)
  {
    HashTitleMatches(Truncated(name));
  }

  /**
   * The title rule: for "<digits>-#<digits><spaces>-<spaces><rest>" plus a
   * four-character extension, the title is `rest` stripped of surrounding
   * whitespace, provided `rest` holds no line feed.
   */
  lemma TitleOfHashPattern(ds1: string, ds2: string, ws1: string, ws2: string, rest: string, ext: string)
    requires |ds1| > 0 && AllDigits(ds1) && |ds2| > 0 && AllDigits(ds2)
    requires AllSpace(ws1) && AllSpace(ws2) && '\n' !in rest && |ext| == 4
    ensures Title(ds1 + (['-'] + (['#'] + (ds2 + (ws1 + (['-'] + (ws2 + rest)))))) + ext) == Strip(rest)
  {
    var t := ds1 + (['-'] + (['#'] + (ds2 + (ws1 + (['-'] + (ws2 + rest))))));
    TruncatedOfExtension(t, ext);
    HashTitleOfPattern(ds1, ds2, ws1, ws2, rest);
    StripOfCapture(rest);
    TitleOfMatch(t + ext, Line(AfterSpaces(rest)));
  }

  /** Dropping the last four characters of `t + ext`, with `ext` four long, gives `t`. */
  lemma TruncatedOfExtension(t: string, ext: string)
    requires |ext| == 4
    ensures Truncated(t + ext) == t
  {
    assert (t + ext)[..|t|] == t;
  }

  /** When the title pattern captures `g`, the title is `g` stripped. */
  lemma TitleOfMatch(name: string, g: string)
    requires HashTitle(Truncated(name)) == Some(g)
    ensures Title(name) == Strip(g)
  {
  }

  /** For a line without a line feed, the `\s*(.*)` capture strips to what the line strips to. */
  lemma StripOfCapture(rest: string)
    requires '\n' !in rest
    ensures Strip(Line(AfterSpaces(rest))) == Strip(rest)
  {
    var l := LeadingSpaces(rest);
    assert AfterSpaces(rest) == rest[l..];
    assert Line(rest[l..]) == rest[l..] by {
      assert '\n' !in rest[l..];
      LineWithoutNewline(rest[l..]);
    }
    assert Strip(rest[l..]) == Strip(rest) by {
      assert rest == rest[..l] + rest[l..];
      StripAfterSpaces(rest[..l], rest[l..]);
    }
  }

  /** A string that neither starts nor ends with whitespace is its own Strip. */
  lemma StripOfTrimmed(s: string)
    requires s == [] || (!IsSpace(s[0]) && !IsSpace(s[|s| - 1]))
    ensures Strip(s) == s
  {
    LeadingSpacesOf(s, 0);
  }

  /** Two groupings of the same hash-marked name. */
  lemma HashMarkedShapes(d: char, word: string)
    ensures [d, '-', '#', d, ' ', '-', ' '] + word + ".txt"
         == [d] + (['-'] + (['#'] + ([d] + (" " + (['-'] + (" " + word)))))) + ".txt"
    ensures [d, '-', '#', d, ' ', '-', ' '] + word + ".txt"
         == [d] + ['-'] + ((['#'] + ([d] + (" " + (['-'] + (" " + word))))) + ".txt")
  {
  }

  /** A name of the form "<n>-#<n> - <title>.txt" with a one-digit number and a one-word title. */
  lemma HashMarkedName(d: char, word: string, index: Option<int>)
    requires IsDigit(d) && |word| > 0 && AllLetters(word)
    ensures ExtractData([d, '-', '#', d, ' ', '-', ' '] + word + ".txt", index) == Parsed(DigitValue(d), word)
  {
    HashMarkedTitle(d, word);
    HashMarkedNumber(d, word, index);
  }

  lemma HashMarkedTitle(d: char, word: string)
    requires IsDigit(d) && |word| > 0 && AllLetters(word)
    ensures Title([d, '-', '#', d, ' ', '-', ' '] + word + ".txt") == word
  {
    assert !IsSpace(word[0]) && !IsSpace(word[|word| - 1]) by {
      LetterIsNotSpace(word[0]);
      LetterIsNotSpace(word[|word| - 1]);
    }
    HashMarkedShapes(d, word);
    assert AllSpace(" ");
    TitleOfHashPattern([d], [d], " ", " ", word, ".txt");
    StripOfTrimmed(word);
  }

  lemma HashMarkedNumber(d: char, word: string, index: Option<int>)
    requires IsDigit(d)
    ensures EpisodeNumber([d, '-', '#', d, ' ', '-', ' '] + word + ".txt", index) == DigitValue(d)
  {
    var tail := ['#'] + ([d] + (" " + (['-'] + (" " + word))));
    HashMarkedShapes(d, word);
    NumberOfDigitPrefix([d], tail + ".txt", index);
    assert [d][..0] == [];
  }

  lemma LetterIsNotSpace(c: char)
    requires 'A' <= c <= 'Z' || 'a' <= c <= 'z'
    ensures !IsSpace(c)
  {
  }

  predicate AllLetters(s: string)
  {
    forall i :: 0 <= i < |s| ==> 'A' <= s[i] <= 'Z' || 'a' <= s[i] <= 'z'
  }

  /** The scenario of two hash-marked transcript names. */
  lemma IntroExample(index: Option<int>)
    ensures ExtractData("1-#1 - Intro.txt", index) == Parsed(1, "Intro")
    ensures ExtractData("2-#2 - Second.txt", index) == Parsed(2, "Second")
  {
    var intro, second := "Intro", "Second";
    assert AllLetters(intro) by {
      assert intro == ['I', 'n', 't', 'r', 'o'];
    }
    assert AllLetters(second) by {
      assert second == ['S', 'e', 'c', 'o', 'n', 'd'];
    }
    assert ['1', '-', '#', '1', ' ', '-', ' '] + intro + ".txt" == "1-#1 - Intro.txt" by {}
    assert ['2', '-', '#', '2', ' ', '-', ' '] + second + ".txt" == "2-#2 - Second.txt" by {}
    HashMarkedName('1', intro, index);
    HashMarkedName('2', second, index);
  }
}
