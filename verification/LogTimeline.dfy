/** Container log lines grouped into events and annotated with the nearest metric sample. */
module LogTimeline {
  import opened Wrappers
  import opened Text
  import opened MetricHistory

  /** Go's zero time, 1 January of year 1, in microseconds since 1970. */
  const ZERO_TIME := -62_135_596_800_000_000

  datatype LogLine = LogLine(timestamp: int, level: string, text: string, details: seq<string>,
                             metric: Option<(real, int)>)

  // ---------- log levels ----------

  const PRIMARY: seq<string> := ["LOG", "ERROR", "WARNING", "FATAL", "PANIC", "NOTICE", "INFO",
                                 "DEBUG", "DEBUG1", "DEBUG2", "DEBUG3", "DEBUG4", "DEBUG5"]
  const CONTINUATION: seq<string> := ["DETAIL", "HINT", "STATEMENT", "CONTEXT", "QUERY"]

  function Levels(): seq<string> {
    PRIMARY + CONTINUATION
  }

  predicate IsWordChar(c: char) {
    'a' <= c <= 'z' || 'A' <= c <= 'Z' || '0' <= c <= '9' || c == '_'
  }

  /** The level regexp matches `level` at position `i`: a word boundary, the token, a colon, a space. */
  predicate MatchAt(text: string, i: nat, level: string) {
    var end := i + |level|;
    && end + 1 < |text|
    && (i == 0 || !IsWordChar(text[i - 1]))
    && text[i..end] == level
    && text[end] == ':'
    && text[end + 1] in {'\t', '\n', '\U{0C}', '\r', ' '}
  }

  function LevelAmong(text: string, i: nat, levels: seq<string>): string {
    if levels == [] then ""
    else if MatchAt(text, i, levels[0]) then levels[0]
    else LevelAmong(text, i, levels[1..])
  }

  function DetectFrom(text: string, i: nat): string
    decreases |text| - i
  {
    if i >= |text| then ""
    else if LevelAmong(text, i, Levels()) != "" then LevelAmong(text, i, Levels())
    else DetectFrom(text, i + 1)
  }

  /** `detectLogLevel`: the token of the leftmost match, or nothing. */
  function DetectLogLevel(text: string): string {
    DetectFrom(text, 0)
  }

  predicate IsPrimary(level: string) {
    level in PRIMARY
  }

  lemma {:induction false} LevelAmongSpec(text: string, i: nat, levels: seq<string>)
    requires forall k | 0 <= k < |levels| :: levels[k] != ""
    ensures var r := LevelAmong(text, i, levels);
            if r == "" then forall l | l in levels :: !MatchAt(text, i, l)
            else r in levels && MatchAt(text, i, r)
  {
    if levels != [] {
      assert levels == [levels[0]] + levels[1..];
      LevelAmongSpec(text, i, levels[1..]);
    }
  }

  lemma LongerToken(text: string, i: nat, a: string, b: string)
    requires MatchAt(text, i, a) && MatchAt(text, i, b) && |a| < |b|
    ensures ':' in b
  {
    assert b[|a|] == text[i..i + |b|][|a|] == text[i + |a|];
  }

  /** At one position at most one token can match. */
  lemma MatchUnique(text: string, i: nat, a: string, b: string)
    requires ':' !in a && ':' !in b && MatchAt(text, i, a) && MatchAt(text, i, b)
    ensures a == b
  {
    hide MatchAt;
    if |a| < |b| {
      LongerToken(text, i, a, b);
    } else if |b| < |a| {
      LongerToken(text, i, b, a);
    } else {
      SameLengthToken(text, i, a, b);
    }
  }

  lemma SameLengthToken(text: string, i: nat, a: string, b: string)
    requires MatchAt(text, i, a) && MatchAt(text, i, b) && |a| == |b|
    ensures a == b
  {
  }

  lemma LevelsAreTokens()
    ensures forall k | 0 <= k < |Levels()| :: Levels()[k] != "" && ':' !in Levels()[k]
  {
    forall k | 0 <= k < |Levels()| ensures Levels()[k] != "" && ':' !in Levels()[k] {
      if k < |PRIMARY| { assert Levels()[k] == PRIMARY[k]; } else { assert Levels()[k] == CONTINUATION[k - |PRIMARY|]; }
    }
  }

  lemma NoColon(level: string)
    requires level in Levels()
    ensures ':' !in level
  {
    LevelsAreTokens();
    hide Levels;
  }

  /** `level` is the token of a match and nothing matches further left. */
  ghost predicate LeftmostMatch(text: string, level: string) {
    exists i: nat :: level in Levels() && MatchAt(text, i, level) && forall j: nat, l | j < i && l in Levels() :: !MatchAt(text, j, l)
  }

  lemma {:induction false} DetectFromSpec(text: string, i: nat)
    requires forall j: nat, l | j < i && l in Levels() :: !MatchAt(text, j, l)
    ensures var r := DetectFrom(text, i);
            if r == "" then forall j: nat, l | l in Levels() :: !MatchAt(text, j, l) else LeftmostMatch(text, r)
    decreases |text| - i
  {
    LevelsAreTokens();
    hide Levels, MatchAt;
    LevelAmongSpec(text, i, Levels());
    if i >= |text| { NoMatchBeyond(text, i); }
    if i < |text| && LevelAmong(text, i, Levels()) == "" {
      DetectFromSpec(text, i + 1);
    }
  }

  lemma NoMatchBeyond(text: string, i: nat)
    requires |text| <= i
    ensures forall j: nat, l :: i <= j ==> !MatchAt(text, j, l)
  {
  }

  /** A level is detected exactly when it is the leftmost match of the regexp. */
  lemma DetectLogLevelIff(text: string, level: string)
    requires level != ""
    ensures DetectLogLevel(text) == level <==> LeftmostMatch(text, level)
  {
    DetectFromSpec(text, 0);
    hide Levels, MatchAt, DetectFrom;
    var r := DetectLogLevel(text);
    if LeftmostMatch(text, level) && r != "" {
      var i: nat :| level in Levels() && MatchAt(text, i, level) && forall j: nat, l | j < i && l in Levels() :: !MatchAt(text, j, l);
      var k: nat :| r in Levels() && MatchAt(text, k, r) && forall j: nat, l | j < k && l in Levels() :: !MatchAt(text, j, l);
      NoColon(level);
      NoColon(r);
      assert i == k;
      MatchUnique(text, i, level, r);
    }
  }

  lemma ColonAt(head: string, tail: string, k: nat)
    requires ':' !in head && k < |head + ":" + tail|
    ensures k <= |head| ==> ((head + ":" + tail)[k] == ':' <==> k == |head|)
    ensures ':' !in tail ==> ((head + ":" + tail)[k] == ':' <==> k == |head|)
  {
    var text := head + ":" + tail;
    if k < |head| {
      assert text[k] == head[k];
    } else if k > |head| {
      assert text[k] == tail[k - |head| - 1];
    }
  }

  lemma MatchShape(text: string, i: nat, level: string)
    requires MatchAt(text, i, level)
    ensures i + |level| < |text| && text[i + |level|] == ':'
    ensures forall k | 0 <= k < |level| :: text[i + k] == level[k]
  {
  }

  /** A match ends at a colon and holds none, so one that begins before the first colon ends there. */
  lemma MatchEnds(head: string, tail: string, i: nat, level: string)
    requires ':' !in head && ':' !in level && MatchAt(head + ":" + tail, i, level) && i <= |head|
    ensures i + |level| == |head| && head[i..] == level
  {
    var text := head + ":" + tail;
    MatchShape(text, i, level);
    hide MatchAt;
    forall k: nat | k <= |head| ensures text[k] == ':' <==> k == |head| { ColonAt(head, tail, k); }
    forall k: nat | i <= k < i + |level| ensures text[k] != ':' { assert text[i + (k - i)] == level[k - i]; }
    assert text[|head|] == ':';
    assert forall k | 0 <= k < |level| :: head[i + k] == level[k];
  }

  predicate IsWord(w: string) {
    forall c | c in w :: IsWordChar(c)
  }

  lemma SeverityWords()
    ensures IsWord("LOG") && IsWord("ERROR") && IsWord("WARNING") && IsWord("FATAL")
    ensures IsWord("PANIC") && IsWord("NOTICE") && IsWord("INFO") && IsWord("DEBUG")
  {
  }

  lemma DebugWords()
    ensures IsWord("DEBUG1") && IsWord("DEBUG2") && IsWord("DEBUG3") && IsWord("DEBUG4") && IsWord("DEBUG5")
  {
  }

  lemma ContinuationWords()
    ensures IsWord("DETAIL") && IsWord("HINT") && IsWord("STATEMENT") && IsWord("CONTEXT") && IsWord("QUERY")
  {
  }

  lemma LevelsAreWords(l: string)
    requires l in Levels()
    ensures IsWord(l)
  {
    SeverityWords();
    DebugWords();
    ContinuationWords();
    hide IsWord;
  }

  /** A match that begins before the last character in front of a token runs over it. */
  lemma MatchAcross(before: string, level: string, tail: string, j: nat, l: string)
    requires ':' !in before && ':' !in level && l in Levels()
    requires j < |before| && MatchAt(before + level + ":" + tail, j, l)
    ensures IsWordChar(before[|before| - 1])
  {
    NoColon(l);
    LevelsAreWords(l);
    hide Levels, MatchAt, IsWordChar;
    MatchEnds(before + level, tail, j, l);
    assert (before + level)[j..][|before| - 1 - j] == before[|before| - 1];
    assert l[|before| - 1 - j] in l;
  }

  lemma MatchThere(before: string, level: string, rest: string)
    requires before != "" ==> !IsWordChar(before[|before| - 1])
    ensures MatchAt(before + level + ": " + rest, |before|, level)
  {
    var text := before + level + ": " + rest;
    assert text[|before|..|before| + |level|] == level;
    assert text[|before| + |level|] == ':' && text[|before| + |level| + 1] == ' ';
    assert before != "" ==> text[|before| - 1] == before[|before| - 1];
  }

  /** A token in front of the first colon of a line, after nothing or something that is no word character, is its
      level. */
  lemma LevelBeforeColon(before: string, level: string, rest: string)
    requires ':' !in before && level in Levels() && (before != "" ==> !IsWordChar(before[|before| - 1]))
    ensures DetectLogLevel(before + level + ": " + rest) == level
  {
    hide MatchAt, Levels, IsWordChar, DetectLogLevel;
    var text := before + level + ": " + rest;
    assert text == before + level + ":" + (" " + rest);
    NoColon(level);
    MatchThere(before, level, rest);
    forall j: nat, l | j < |before| && l in Levels() ensures !MatchAt(text, j, l) {
      if MatchAt(text, j, l) { MatchAcross(before, level, " " + rest, j, l); }
    }
    LevelsAreTokens();
    assert LeftmostMatch(text, level);
    DetectLogLevelIff(text, level);
  }

  /** In a text with one colon after a word, only that word can match. */
  lemma WholeMatch(word: string, tail: string, i: nat, level: string)
    requires IsWord(word) && ':' !in word && ':' !in tail && ':' !in level && MatchAt(word + ":" + tail, i, level)
    ensures level == word
  {
    var text := word + ":" + tail;
    MatchShape(text, i, level);
    ColonAt(word, tail, i + |level|);
    MatchEnds(word, tail, i, level);
    assert forall k | 0 <= k < |word| :: text[k] == word[k] && word[k] in word;
    assert i == 0;
    assert word[0..] == word;
  }

  /** A token inside a longer word is no level: a word in front of the only colon counts as a whole. */
  lemma WholeWordOnly(word: string, rest: string)
    requires IsWord(word) && ':' !in word && ':' !in rest
    ensures DetectLogLevel(word + ": " + rest) == if word in Levels() then word else ""
  {
    if word in Levels() {
      LevelBeforeColon("", word, rest);
      assert "" + word + ": " + rest == word + ": " + rest;
    } else {
      hide MatchAt, Levels, IsWord, DetectLogLevel;
      var text := word + ": " + rest;
      assert text == word + ":" + (" " + rest);
      var level := DetectLogLevel(text);
      if level != "" {
        DetectLogLevelIff(text, level);
        var i: nat :| level in Levels() && MatchAt(text, i, level) && forall j: nat, l | j < i && l in Levels() :: !MatchAt(text, j, l);
        NoColon(level);
        WholeMatch(word, " " + rest, i, level);
      }
    }
  }

  // ---------- grouping ----------

  /** A line's timestamp and text. `parseTime` stands for time.Parse with the RFC 3339 layout. */
  function Stamped(l: string, parseTime: string -> Option<int>): (int, string) {
    var sp := IndexOf(l, ' ');
    if sp < |l| && parseTime(l[..sp]).Some? then (parseTime(l[..sp]).value, l[sp + 1..]) else (ZERO_TIME, l)
  }

  /** The first position of `c`, or the length. */
  function IndexOf(s: string, c: char): (i: nat)
    ensures i <= |s| && (i < |s| ==> s[i] == c)
  {
    if s == "" || s[0] == c then 0 else 1 + IndexOf(s[1..], c)
  }

  lemma {:induction false} IndexOfFirst(before: string, c: char, after: string)
    requires c !in before
    ensures IndexOf(before + [c] + after, c) == |before| && IndexOf(before, c) == |before|
  {
    var s := before + [c] + after;
    if before != "" {
      assert s[1..] == before[1..] + [c] + after;
      IndexOfFirst(before[1..], c, after);
    }
  }

  /** A line that begins with a time stamp and a space carries that instant and the text after the space. */
  lemma StampedLine(stamp: string, text: string, parseTime: string -> Option<int>)
    requires ' ' !in stamp && parseTime(stamp).Some?
    ensures Stamped(stamp + " " + text, parseTime) == (parseTime(stamp).value, text)
  {
    var l := stamp + " " + text;
    IndexOfFirst(stamp, ' ', text);
    assert l[..|stamp|] == stamp && l[|stamp| + 1..] == text;
  }

  /** A line that does not begin so is kept whole, at the zero time. */
  lemma UnstampedLine(l: string, parseTime: string -> Option<int>)
    requires forall stamp, text :: l == stamp + " " + text && ' ' !in stamp ==> parseTime(stamp).None?
    ensures Stamped(l, parseTime) == (ZERO_TIME, l)
  {
    var sp := IndexOf(l, ' ');
    if sp < |l| {
      NoneBefore(l, ' ');
      assert l == l[..sp] + " " + l[sp + 1..];
    }
  }

  lemma {:induction false} NoneBefore(s: string, c: char)
    ensures c !in s[..IndexOf(s, c)]
  {
    if s != "" && s[0] != c {
      NoneBefore(s[1..], c);
      assert s[..IndexOf(s, c)] == [s[0]] + s[1..][..IndexOf(s[1..], c)];
    }
  }

  function NonEmpty(lines: seq<string>): seq<string> {
    if lines == [] then []
    else NonEmpty(lines[..|lines| - 1]) + if lines[|lines| - 1] == "" then [] else [lines[|lines| - 1]]
  }

  lemma {:induction false} NonEmptyJoin(a: seq<string>, b: seq<string>)
    ensures NonEmpty(a + b) == NonEmpty(a) + NonEmpty(b)
  {
    if b == [] {
      assert a + b == a;
    } else {
      assert (a + b)[..|a + b| - 1] == a + b[..|b| - 1];
      NonEmptyJoin(a, b[..|b| - 1]);
    }
  }

  /** Empty lines go and every other line stays where it stands. */
  lemma NonEmptyOf(a: seq<string>, l: string, b: seq<string>)
    ensures NonEmpty(a + [l] + b) == NonEmpty(a) + (if l == "" then [] else [l]) + NonEmpty(b)
  {
    NonEmptyJoin(a + [l], b);
    NonEmptyJoin(a, [l]);
    assert [l][..0] == [];
    assert NonEmpty([l]) == if l == "" then [] else [l];
  }

  /** All the text of the entries, in order: each entry's own line and then its details. */
  function Flatten(entries: seq<LogLine>): seq<string> {
    if entries == [] then []
    else Flatten(entries[..|entries| - 1]) + [entries[|entries| - 1].text] + entries[|entries| - 1].details
  }

  function Texts(lines: seq<string>, parseTime: string -> Option<int>): (t: seq<string>)
    ensures |t| == |lines| && forall i | 0 <= i < |t| :: t[i] == Stamped(lines[i], parseTime).1
  {
    seq(|lines|, i requires 0 <= i < |lines| => Stamped(lines[i], parseTime).1)
  }

  /** Only the first entry may start with a line that is not of a primary level, details never are of
      one, and every entry carries the level of its own text. */
  predicate Grouped(entries: seq<LogLine>) {
    && (forall i | 0 < i < |entries| :: IsPrimary(entries[i].level))
    && (forall i | 0 <= i < |entries| :: entries[i].level == DetectLogLevel(entries[i].text))
    && (forall i, k | 0 <= i < |entries| && 0 <= k < |entries[i].details| ::
          !IsPrimary(DetectLogLevel(entries[i].details[k])))
  }

  /** Every entry carries the timestamp of the line it starts with. */
  predicate StampedLike(entries: seq<LogLine>, lines: seq<string>, parseTime: string -> Option<int>) {
    && |Flatten(entries)| == |lines|
    && forall i | 0 <= i < |entries| ::
         |Flatten(entries[..i])| < |lines| && entries[i].timestamp == Stamped(lines[|Flatten(entries[..i])|], parseTime).0
  }

  /** The entries represent the lines read so far. */
  predicate Represents(out: seq<LogLine>, lines: seq<string>, parseTime: string -> Option<int>) {
    && Flatten(out) == Texts(lines, parseTime)
    && Grouped(out)
    && StampedLike(out, lines, parseTime)
    && forall i | 0 <= i < |out| :: out[i].metric == None
  }

  lemma NextLine(rawLines: seq<string>, n: nat)
    requires n < |rawLines|
    ensures NonEmpty(rawLines[..n + 1]) ==
            if rawLines[n] == "" then NonEmpty(rawLines[..n]) else NonEmpty(rawLines[..n]) + [rawLines[n]]
  {
    assert rawLines[..n + 1][..n] == rawLines[..n];
    assert NonEmpty(rawLines[..n]) + [] == NonEmpty(rawLines[..n]);
  }

  lemma NothingRead(rawLines: seq<string>, parseTime: string -> Option<int>)
    ensures Represents([], NonEmpty(rawLines[..0]), parseTime)
  {
  }

  method ParseLogLines(raw: string, parseTime: string -> Option<int>) returns (out: seq<LogLine>)
    ensures Represents(out, NonEmpty(Split(raw, '\n')), parseTime)
  {
    hide NonEmpty, Represents, Stamped, DetectLogLevel, Split;
    var rawLines := Split(raw, '\n');
    out := [];
    NothingRead(rawLines, parseTime);
    for n := 0 to |rawLines|
      invariant Represents(out, NonEmpty(rawLines[..n]), parseTime)
    {
      var l := rawLines[n];
      NextLine(rawLines, n);
      if l != "" {
        var (ts, text) := Stamped(l, parseTime);
        var level := DetectLogLevel(text);
        if |out| > 0 && !IsPrimary(level) {
          DetailAdded(out, NonEmpty(rawLines[..n]), l, parseTime);
          var last := out[|out| - 1];
          out := out[|out| - 1 := last.(details := last.details + [text])];
        } else {
          EntryAdded(out, NonEmpty(rawLines[..n]), l, parseTime);
          out := out + [LogLine(ts, level, text, [], None)];
        }
      }
    }
    assert rawLines[..|rawLines|] == rawLines;
  }

  lemma TextsAppend(lines: seq<string>, l: string, parseTime: string -> Option<int>)
    ensures Texts(lines + [l], parseTime) == Texts(lines, parseTime) + [Stamped(l, parseTime).1]
  {
  }

  lemma DetailAdded(out: seq<LogLine>, lines: seq<string>, l: string, parseTime: string -> Option<int>)
    requires out != [] && Represents(out, lines, parseTime) && !IsPrimary(DetectLogLevel(Stamped(l, parseTime).1))
    ensures var last := out[|out| - 1];
            var grown := out[|out| - 1 := last.(details := last.details + [Stamped(l, parseTime).1])];
            Represents(grown, lines + [l], parseTime)
  {
    hide Stamped, DetectLogLevel, IsPrimary;
    var n := |out| - 1;
    var grown := out[n := out[n].(details := out[n].details + [Stamped(l, parseTime).1])];
    TextsAppend(lines, l, parseTime);
    assert grown[..n] == out[..n];
    assert Flatten(grown) == Flatten(out) + [Stamped(l, parseTime).1];
    forall i | 0 <= i < |grown| ensures grown[..i] == out[..i] {
    }
    hide Flatten;
  }

  lemma EntryAdded(out: seq<LogLine>, lines: seq<string>, l: string, parseTime: string -> Option<int>)
    requires Represents(out, lines, parseTime) && (out == [] || IsPrimary(DetectLogLevel(Stamped(l, parseTime).1)))
    ensures var (ts, text) := Stamped(l, parseTime);
            Represents(out + [LogLine(ts, DetectLogLevel(text), text, [], None)], lines + [l], parseTime)
  {
    var (ts, text) := Stamped(l, parseTime);
    var e := LogLine(ts, DetectLogLevel(text), text, [], None);
    TextsAppend(lines, l, parseTime);
    assert (out + [e])[..|out|] == out;
    assert Flatten(out + [e]) == Flatten(out) + [text];
    EntryStamped(out, e, lines, l, parseTime);
    EntryGrouped(out, e);
    hide Stamped, DetectLogLevel, IsPrimary, Flatten, Grouped, StampedLike;
  }

  lemma EntryGrouped(out: seq<LogLine>, e: LogLine)
    requires Grouped(out) && e.level == DetectLogLevel(e.text) && e.details == [] && (out == [] || IsPrimary(e.level))
    ensures Grouped(out + [e])
  {
    hide DetectLogLevel, IsPrimary;
  }

  lemma EntryStamped(out: seq<LogLine>, e: LogLine, lines: seq<string>, l: string, parseTime: string -> Option<int>)
    requires StampedLike(out, lines, parseTime) && e.timestamp == Stamped(l, parseTime).0
    requires Flatten(out + [e]) == Flatten(out) + [e.text]
    ensures StampedLike(out + [e], lines + [l], parseTime)
  {
    hide Stamped, Flatten;
    var grown := out + [e];
    forall i | 0 <= i < |grown| ensures grown[..i] == out[..i] {
    }
    assert out[..|out|] == out;
  }

  lemma FlattenAppend(entries: seq<LogLine>, e: LogLine)
    ensures Flatten(entries + [e]) == Flatten(entries) + [e.text] + e.details
  {
    assert (entries + [e])[..|entries|] == entries;
  }

  lemma Regroup(a: seq<string>, b: seq<string>, c: seq<string>, d: seq<string>)
    ensures a + b + c + d == a + (b + c + d)
  {
  }

  lemma {:induction false} FlattenFront(entries: seq<LogLine>)
    requires entries != []
    ensures Flatten(entries) == [entries[0].text] + entries[0].details + Flatten(entries[1..])
  {
    if |entries| > 1 {
      var init, last := entries[..|entries| - 1], entries[|entries| - 1];
      hide Flatten;
      FlattenFront(init);
      assert entries == init + [last] && entries[1..] == init[1..] + [last];
      FlattenAppend(init, last);
      FlattenAppend(init[1..], last);
      Regroup([entries[0].text] + entries[0].details, Flatten(init[1..]), [last.text], last.details);
    } else {
      assert entries[..0] == [] && entries[1..] == [];
    }
  }

  /** The grouping is forced: entries with the same flattened text agree on every text, level and detail. */
  lemma {:induction false} GroupingUnique(a: seq<LogLine>, b: seq<LogLine>)
    requires Grouped(a) && Grouped(b) && Flatten(a) == Flatten(b)
    ensures |a| == |b|
    ensures forall i | 0 <= i < |a| :: a[i].text == b[i].text && a[i].level == b[i].level && a[i].details == b[i].details
  {
    FirstText(a, b);
    FirstText(b, a);
    if a != [] && b != [] {
      HeadsAgree(a, b);
      GroupedTail(a);
      GroupedTail(b);
      hide Grouped, Flatten;
      GroupingUnique(a[1..], b[1..]);
      forall i | 0 <= i < |a|
        ensures a[i].text == b[i].text && a[i].level == b[i].level && a[i].details == b[i].details
      {
        if i > 0 { assert a[i] == a[1..][i - 1] && b[i] == b[1..][i - 1]; }
      }
    }
  }

  lemma FirstText(a: seq<LogLine>, b: seq<LogLine>)
    requires Flatten(a) == Flatten(b)
    ensures a == [] ==> b == []
  {
    if b != [] { FlattenFront(b); }
  }

  lemma GroupedTail(a: seq<LogLine>)
    requires a != [] && Grouped(a)
    ensures Grouped(a[1..])
  {
    hide DetectLogLevel, IsPrimary;
  }

  /** Entries with the same flattened text begin with the same entry and go on with the same text. */
  lemma HeadsAgree(a: seq<LogLine>, b: seq<LogLine>)
    requires a != [] && b != [] && Grouped(a) && Grouped(b) && Flatten(a) == Flatten(b)
    ensures a[0].text == b[0].text && a[0].level == b[0].level && a[0].details == b[0].details
    ensures Flatten(a[1..]) == Flatten(b[1..])
  {
    SameHead(a, b);
    SameHead(b, a);
    FlattenFront(a);
    FlattenFront(b);
    assert a[0].level == DetectLogLevel(a[0].text) && b[0].level == DetectLogLevel(b[0].text);
    hide Grouped, Flatten, DetectLogLevel;
    var all, n := Flatten(a), |a[0].details|;
    assert a[0].text == all[0] && b[0].text == all[0];
    assert a[0].details == all[1..n + 1] && b[0].details == all[1..n + 1];
    assert Flatten(a[1..]) == all[n + 1..] && Flatten(b[1..]) == all[n + 1..];
  }

  lemma DetailAt(b: seq<LogLine>, k: nat)
    requires b != [] && k < |b[0].details|
    ensures k + 1 < |Flatten(b)| && Flatten(b)[k + 1] == b[0].details[k]
  {
    FlattenFront(b);
  }

  lemma SecondEntryAt(a: seq<LogLine>)
    requires a != []
    ensures |a| > 1 ==> |a[0].details| + 1 < |Flatten(a)| && Flatten(a)[|a[0].details| + 1] == a[1].text
    ensures |a| == 1 ==> |Flatten(a)| == |a[0].details| + 1
  {
    FlattenFront(a);
    if |a| > 1 { FlattenFront(a[1..]); } else { assert a[1..] == []; }
  }

  /** The first event of `a` is no shorter than that of `b`. */
  lemma SameHead(a: seq<LogLine>, b: seq<LogLine>)
    requires a != [] && b != [] && Grouped(a) && Grouped(b) && Flatten(a) == Flatten(b)
    ensures |a[0].details| >= |b[0].details|
  {
    hide Flatten;
    SecondEntryAt(a);
    if |a[0].details| < |b[0].details| {
      DetailAt(b, |a[0].details|);
    }
  }

  // ---------- nearest sample ----------

  function Distance(a: int, b: int): nat {
    if a < b then b - a else a - b
  }

  /** `sort.Search`: the first sample not before `at`. */
  method SearchAtOrAfter(history: seq<MetricPoint>, at: int) returns (idx: nat)
    requires Ordered(history)
    ensures idx <= |history|
    ensures forall i | 0 <= i < idx :: history[i].at < at
    ensures forall i | idx <= i < |history| :: at <= history[i].at
  {
    var i, j := 0, |history|;
    while i < j
      invariant 0 <= i <= j <= |history|
      invariant forall k | 0 <= k < i :: history[k].at < at
      invariant forall k | j <= k < |history| :: at <= history[k].at
    {
      var h := (i + j) / 2;
      if history[h].at < at { i := h + 1; } else { j := h; }
    }
    idx := i;
  }

  /** `i` is a closest sample to `at` in the whole history, on the earlier side when two sides tie. */
  predicate IsNearest(history: seq<MetricPoint>, at: int, i: nat) {
    && i < |history|
    && (forall k | 0 <= k < |history| :: Distance(history[i].at, at) <= Distance(history[k].at, at))
    && (forall k | 0 <= k < |history| && history[k].at < at && Distance(history[k].at, at) == Distance(history[i].at, at) ::
          history[i].at < at)
  }

  /** The reading shown for instant `at`. */
  ghost predicate IsReading(history: seq<MetricPoint>, at: int, r: Option<(real, int)>) {
    if history == [] || at == ZERO_TIME then r == None
    else r.Some? && exists i: nat :: IsNearest(history, at, i) && r.value == (history[i].cpu, history[i].connections)
  }

  method NearestMetric(history: seq<MetricPoint>, at: int) returns (r: Option<(real, int)>)
    requires Ordered(history)
    ensures IsReading(history, at, r)
  {
    if |history| == 0 || at == ZERO_TIME { return None; }
    var idx := SearchAtOrAfter(history, at);
    var best, bestDiff := -1, 0;
    var candidates: seq<int> := [idx - 1, idx];
    for n := 0 to 2
      invariant -1 <= best < |history| && (best >= 0 ==> bestDiff == Distance(history[best].at, at))
      invariant n == 0 ==> best == -1
      invariant n == 1 ==> best == idx - 1
      invariant n == 2 ==> best in {idx - 1, idx} && best >= 0
      invariant n == 2 && idx > 0 ==> bestDiff <= Distance(history[idx - 1].at, at)
      invariant n == 2 && idx < |history| ==> bestDiff <= Distance(history[idx].at, at)
      invariant n == 2 && best == idx > 0 ==> bestDiff < Distance(history[idx - 1].at, at)
    {
      var i := candidates[n];
      if 0 <= i < |history| {
        var diff := history[i].at - at;
        if diff < 0 { diff := -diff; }
        if best == -1 || diff < bestDiff {
          bestDiff := diff;
          best := i;
        }
      }
    }
    assert IsNearest(history, at, best);
    return Some((history[best].cpu, history[best].connections));
  }

  /** `LogsTimeline` after the log and the history have been read. */
  method LogsTimeline(raw: string, history: seq<MetricPoint>, parseTime: string -> Option<int>) returns (lines: seq<LogLine>)
    requires Ordered(history)
    ensures Flatten(lines) == Texts(NonEmpty(Split(raw, '\n')), parseTime)
    ensures Grouped(lines) && StampedLike(lines, NonEmpty(Split(raw, '\n')), parseTime)
    ensures forall i | 0 <= i < |lines| :: IsReading(history, lines[i].timestamp, lines[i].metric)
  {
    lines := ParseLogLines(raw, parseTime);
    ghost var parsed := lines;
    assert forall k | 0 <= k < |lines| :: lines[k].metric == None;
    hide IsReading, Represents, NonEmpty, Flatten, Grouped, StampedLike;
    for i := 0 to |lines|
      invariant AnnotatedUpTo(history, parsed, lines, i)
    {
      var r := NearestMetric(history, lines[i].timestamp);
      AnnotateStep(history, parsed, lines, i, r);
      if r.Some? {
        lines := lines[i := lines[i].(metric := r)];
      }
    }
    AnnotatedSame(parsed, lines, NonEmpty(Split(raw, '\n')), parseTime);
  }

  ghost predicate AnnotatedUpTo(history: seq<MetricPoint>, parsed: seq<LogLine>, lines: seq<LogLine>, i: nat) {
    && i <= |lines|
    && Annotated(parsed, lines)
    && (forall k | 0 <= k < i :: IsReading(history, lines[k].timestamp, lines[k].metric))
    && (forall k | i <= k < |lines| :: lines[k].metric == None)
  }

  lemma AnnotateStep(history: seq<MetricPoint>, parsed: seq<LogLine>, lines: seq<LogLine>, i: nat, r: Option<(real, int)>)
    requires AnnotatedUpTo(history, parsed, lines, i) && i < |lines| && IsReading(history, lines[i].timestamp, r)
    ensures AnnotatedUpTo(history, parsed, if r.Some? then lines[i := lines[i].(metric := r)] else lines, i + 1)
  {
    hide IsReading;
  }

  /** `b` is `a` with other readings. */
  predicate Annotated(a: seq<LogLine>, b: seq<LogLine>) {
    |a| == |b| && forall k | 0 <= k < |a| :: b[k] == a[k].(metric := b[k].metric)
  }

  lemma AnnotatedSame(a: seq<LogLine>, b: seq<LogLine>, lines: seq<string>, parseTime: string -> Option<int>)
    requires Annotated(a, b) && Represents(a, lines, parseTime)
    ensures Flatten(b) == Texts(lines, parseTime) && Grouped(b) && StampedLike(b, lines, parseTime)
  {
    SameFlatten(a, b);
    AnnotatedStamps(a, b, lines, parseTime);
    AnnotatedGroups(a, b);
    hide Flatten, Grouped, StampedLike;
  }

  lemma AnnotatedGroups(a: seq<LogLine>, b: seq<LogLine>)
    requires Annotated(a, b) && Grouped(a)
    ensures Grouped(b)
  {
    hide DetectLogLevel, IsPrimary;
  }

  lemma AnnotatedStamps(a: seq<LogLine>, b: seq<LogLine>, lines: seq<string>, parseTime: string -> Option<int>)
    requires Annotated(a, b) && StampedLike(a, lines, parseTime)
    ensures StampedLike(b, lines, parseTime)
  {
    SameFlatten(a, b);
    hide Flatten, Stamped;
    forall i | 0 <= i < |b|
      ensures |Flatten(b[..i])| < |lines| && b[i].timestamp == Stamped(lines[|Flatten(b[..i])|], parseTime).0
    {
      SameFlatten(a[..i], b[..i]);
    }
  }

  lemma {:induction false} SameFlatten(a: seq<LogLine>, b: seq<LogLine>)
    requires Annotated(a, b)
    ensures Flatten(a) == Flatten(b)
  {
    if a != [] { SameFlatten(a[..|a| - 1], b[..|b| - 1]); }
  }

  /** `LogsTimeline` on the buffer of a server: whatever was collected and forgotten before, with a clock that
      never goes back every entry carries a closest reading among the last `maxLen` points recorded. */
  method ServerTimeline(h: HistoryCollector, ghost es: seq<Event>, id: string, raw: string,
                        parseTime: string -> Option<int>)
    returns (lines: seq<LogLine>)
    requires ClockForward(es) && h.points == Run(h.maxLen, es)
    ensures Flatten(lines) == Texts(NonEmpty(Split(raw, '\n')), parseTime)
    ensures forall i | 0 <= i < |lines| ::
              IsReading(LastOf(Recorded(es, id), h.maxLen), lines[i].timestamp, lines[i].metric)
  {
    var history := h.Get(id);
    BufferOrdered(h.maxLen, es, id);
    BufferIsSuffix(h.maxLen, es, id);
    lines := LogsTimeline(raw, history, parseTime);
  }
}
