/** The string operations of Go's strings and bufio packages that the modelled code relies on.
    A string is a sequence of Unicode code points. */
module Text {
  /** `strings.Split` on a one-character separator: always at least one part. */
  function Split(s: string, sep: char): (parts: seq<string>)
    ensures parts != []
  {
    if s == "" then [""]
    else
      var rest := Split(s[1..], sep);
      if s[0] == sep then [""] + rest else Extend(s[0], rest)
  }

  /** The parts with `c` put in front of the first one. */
  function Extend(c: char, parts: seq<string>): (r: seq<string>)
    requires parts != []
    ensures r != []
  {
    [[c] + parts[0]] + parts[1..]
  }

  lemma ExtendAppend(c: char, left: seq<string>, right: seq<string>)
    requires left != []
    ensures Extend(c, left + right) == Extend(c, left) + right
  {
  }

  function Join(parts: seq<string>, sep: char): string {
    if parts == [] then ""
    else if |parts| == 1 then parts[0]
    else parts[0] + [sep] + Join(parts[1..], sep)
  }

  lemma SplitCons(c: char, s: string, sep: char)
    ensures Split([c] + s, sep) == if c == sep then [""] + Split(s, sep) else Extend(c, Split(s, sep))
  {
    assert ([c] + s)[1..] == s;
  }

  lemma SplitAppendStep(c: char, tail: string, sep: char, b: string)
    requires Split(tail + [sep] + b, sep) == Split(tail, sep) + Split(b, sep)
    ensures Split([c] + (tail + [sep] + b), sep) == Split([c] + tail, sep) + Split(b, sep)
  {
    SplitCons(c, tail, sep);
    SplitCons(c, tail + [sep] + b, sep);
    hide Split, Extend;
    ExtendAppend(c, Split(tail, sep), Split(b, sep));
    assert [""] + (Split(tail, sep) + Split(b, sep)) == [""] + Split(tail, sep) + Split(b, sep);
  }

  lemma {:induction false} SplitAppend(a: string, sep: char, b: string)
    ensures Split(a + [sep] + b, sep) == Split(a, sep) + Split(b, sep)
  {
    if a == "" {
      assert a + [sep] + b == [sep] + b;
      SplitCons(sep, b, sep);
    } else {
      hide Split;
      var c, tail := a[0], a[1..];
      assert a == [c] + tail && a + [sep] + b == [c] + (tail + [sep] + b);
      SplitAppend(tail, sep, b);
      SplitAppendStep(c, tail, sep, b);
    }
  }

  lemma {:induction false} SplitWhole(s: string, sep: char)
    requires sep !in s
    ensures Split(s, sep) == [s]
  {
    if s != "" {
      assert sep !in s[1..];
      SplitWhole(s[1..], sep);
      assert [s[0]] + s[1..] == s;
    }
  }

  lemma {:induction false} PartsHaveNoSeparator(s: string, sep: char)
    ensures forall p | p in Split(s, sep) :: sep !in p
  {
    if s != "" {
      PartsHaveNoSeparator(s[1..], sep);
      var rest := Split(s[1..], sep);
      assert rest[0] in rest && forall p | p in rest[1..] :: p in rest;
    }
  }

  /** Splitting undoes joining: nothing is lost or invented. */
  lemma {:induction false} SplitJoin(parts: seq<string>, sep: char)
    requires parts != [] && forall p | p in parts :: sep !in p
    ensures Split(Join(parts, sep), sep) == parts
  {
    SplitWhole(parts[0], sep);
    if |parts| > 1 {
      SplitJoin(parts[1..], sep);
      SplitAppend(parts[0], sep, Join(parts[1..], sep));
      assert parts == [parts[0]] + parts[1..];
    } else {
      assert parts == [parts[0]];
    }
  }

  lemma {:induction false} JoinSplit(s: string, sep: char)
    ensures Join(Split(s, sep), sep) == s
  {
    if s != "" {
      JoinSplit(s[1..], sep);
      var rest := Split(s[1..], sep);
      if s[0] == sep {
        assert ([""] + rest)[1..] == rest;
      } else {
        assert Extend(s[0], rest)[1..] == rest[1..];
      }
      assert [s[0]] + s[1..] == s;
    }
  }

  // ---------- white space ----------

  /** `unicode.IsSpace`. */
  predicate IsSpace(c: char) {
    || c in {'\t', '\n', '\U{0B}', '\U{0C}', '\r', ' ', '\U{85}', '\U{A0}', '\U{1680}'}
    || '\U{2000}' <= c <= '\U{200A}'
    || c in {'\U{2028}', '\U{2029}', '\U{202F}', '\U{205F}', '\U{3000}'}
  }

  predicate Solid(s: string) {
    forall c | c in s :: !IsSpace(c)
  }

  function TrimLeft(s: string): string {
    if s != "" && IsSpace(s[0]) then TrimLeft(s[1..]) else s
  }

  function TrimRight(s: string): string {
    if s != "" && IsSpace(s[|s| - 1]) then TrimRight(s[..|s| - 1]) else s
  }

  function TrimSpace(s: string): string {
    TrimRight(TrimLeft(s))
  }

  /** `strings.Fields`: the maximal runs of characters that are not white space. */
  function Fields(s: string): (parts: seq<string>)
    ensures s != "" && !IsSpace(s[0]) ==> parts != []
  {
    if s == "" then []
    else if IsSpace(s[0]) then Fields(s[1..])
    else
      var rest := Fields(s[1..]);
      if |s| == 1 || IsSpace(s[1]) then [[s[0]]] + rest
      else
        [[s[0]] + rest[0]] + rest[1..]
  }

  lemma {:induction false} FieldsSolid(s: string)
    ensures forall i | 0 <= i < |Fields(s)| :: Fields(s)[i] != "" && Solid(Fields(s)[i])
  {
    if s != "" {
      FieldsSolid(s[1..]);
    }
  }

  lemma {:induction false} FieldsOne(s: string)
    requires s != "" && Solid(s)
    ensures Fields(s) == [s]
  {
    assert s[0] in s;
    if |s| > 1 {
      assert s[1] in s && Solid(s[1..]);
      FieldsOne(s[1..]);
      assert [s[0]] + s[1..] == s;
    } else {
      assert s == [s[0]];
    }
  }

  /** A run of solid characters followed by white space is the first field. */
  lemma {:induction false} FieldsCons(s: string, sep: char, rest: string)
    requires s != "" && Solid(s) && IsSpace(sep)
    ensures Fields(s + [sep] + rest) == [s] + Fields(rest)
  {
    var t := s + [sep] + rest;
    assert s[0] in s;
    assert t[0] == s[0];
    if |s| > 1 {
      assert s[1] in s && Solid(s[1..]);
      FieldsCons(s[1..], sep, rest);
      assert t[1..] == s[1..] + [sep] + rest;
      assert [s[0]] + s[1..] == s;
    } else {
      assert t[1..] == [sep] + rest && ([sep] + rest)[1..] == rest;
      assert s == [s[0]];
    }
  }

  lemma {:induction false} FieldsOfJoin(parts: seq<string>, sep: char)
    requires IsSpace(sep) && forall i | 0 <= i < |parts| :: parts[i] != "" && Solid(parts[i])
    ensures Fields(Join(parts, sep)) == parts
  {
    if |parts| == 1 {
      FieldsOne(parts[0]);
      assert parts == [parts[0]];
    } else if |parts| > 1 {
      FieldsOfJoin(parts[1..], sep);
      FieldsCons(parts[0], sep, Join(parts[1..], sep));
      assert parts == [parts[0]] + parts[1..];
    }
  }

  /** White space separates fields: what stands before it and after it is split on its own. With the field of a
      solid string this says what the fields of any text are. */
  lemma {:induction false} FieldsAround(a: string, sep: char, b: string)
    requires IsSpace(sep)
    ensures Fields(a + [sep] + b) == Fields(a) + Fields(b)
  {
    var t := a + [sep] + b;
    if a == "" {
      assert t[1..] == b;
      assert [] + Fields(b) == Fields(b);
    } else {
      FieldsAround(a[1..], sep, b);
      assert t[1..] == a[1..] + [sep] + b;
      FieldsHead(a[0], a[1..], a[1..] + [sep] + b, Fields(b));
      assert t == [a[0]] + (a[1..] + [sep] + b) && a == [a[0]] + a[1..];
    }
  }

  lemma FieldsHead(c: char, tail: string, longer: string, more: seq<string>)
    requires Fields(longer) == Fields(tail) + more && longer != ""
    requires IsSpace(longer[0]) <==> tail == "" || IsSpace(tail[0])
    ensures Fields([c] + longer) == Fields([c] + tail) + more
  {
    assert ([c] + longer)[1..] == longer && ([c] + tail)[1..] == tail;
  }

  predicate Blank(s: string) {
    forall c | c in s :: IsSpace(c)
  }

  lemma {:induction false} TrimLeftBlank(a: string, s: string)
    requires Blank(a)
    ensures TrimLeft(a + s) == TrimLeft(s)
  {
    if a == "" {
      assert a + s == s;
    } else {
      assert a[0] in a && (a + s)[1..] == a[1..] + s;
      TrimLeftBlank(a[1..], s);
    }
  }

  lemma {:induction false} TrimRightBlank(s: string, b: string)
    requires Blank(b)
    ensures TrimRight(s + b) == TrimRight(s)
  {
    if b == "" {
      assert s + b == s;
    } else {
      var n := |b| - 1;
      assert b[n] in b && (s + b)[..|s + b| - 1] == s + b[..n];
      TrimRightBlank(s, b[..n]);
    }
  }

  /** Trimming removes the white space around a text and nothing else. */
  lemma TrimPadded(a: string, s: string, b: string)
    requires Blank(a) && Blank(b) && (s != "" ==> !IsSpace(s[0]) && !IsSpace(s[|s| - 1]))
    ensures TrimSpace(a + s + b) == s
  {
    assert a + s + b == a + (s + b);
    TrimLeftBlank(a, s + b);
    if s == "" {
      assert s + b == b + "";
      TrimLeftBlank(b, "");
    } else {
      assert (s + b)[0] == s[0];
      TrimRightBlank(s, b);
    }
  }

  lemma {:induction false} TrimLeftEmptyIff(s: string)
    ensures TrimLeft(s) == "" <==> Blank(s)
  {
    if s != "" {
      TrimLeftEmptyIff(s[1..]);
      assert s[0] in s && s == [s[0]] + s[1..];
    }
  }

  lemma {:induction false} TrimRightKeeps(s: string)
    requires s != "" && !IsSpace(s[0])
    ensures TrimRight(s) != ""
  {
    if |s| > 1 { TrimRightKeeps(s[..|s| - 1]); }
  }

  lemma {:induction false} TrimLeftHead(s: string)
    ensures TrimLeft(s) != "" ==> !IsSpace(TrimLeft(s)[0])
  {
    if s != "" { TrimLeftHead(s[1..]); }
  }

  lemma TrimEmptyIff(s: string)
    ensures TrimSpace(s) == "" <==> Blank(s)
  {
    TrimLeftEmptyIff(s);
    TrimLeftHead(s);
    if TrimLeft(s) != "" { TrimRightKeeps(TrimLeft(s)); }
    hide IsSpace;
  }

  lemma TrimNothing(s: string)
    requires s != "" && !IsSpace(s[0]) && !IsSpace(s[|s| - 1])
    ensures TrimSpace(s) == s
  {
  }

  /** A trailing white-space character never changes the trimmed text. */
  lemma {:induction false} TrimDropLast(s: string)
    requires s != "" && IsSpace(s[|s| - 1])
    ensures TrimSpace(s[..|s| - 1]) == TrimSpace(s)
  {
    var init := s[..|s| - 1];
    if init != "" && IsSpace(s[0]) {
      assert s[1..][..|s| - 2] == init[1..];
      TrimDropLast(s[1..]);
    } else if init == "" {
      assert s[1..] == "";
    }
  }

  // ---------- bufio.Scanner ----------

  /** Bytes of one code point in UTF-8. */
  function Utf8Length(c: char): nat {
    if c < '\U{80}' then 1 else if c < '\U{800}' then 2 else if c < '\U{10000}' then 3 else 4
  }

  function Bytes(s: string): nat {
    if s == "" then 0 else Utf8Length(s[0]) + Bytes(s[1..])
  }

  /** Where one, two and three bytes end, after section 3 of RFC 3629. */
  lemma Utf8Bounds(c: char)
    ensures Utf8Length(c) <= 1 <==> c as int <= 0x7F
    ensures Utf8Length(c) <= 2 <==> c as int <= 0x7FF
    ensures Utf8Length(c) <= 3 <==> c as int <= 0xFFFF
    ensures 1 <= Utf8Length(c) <= 4
  {
  }

  const MAX_TOKEN := 65536

  /** The scanner's buffer holds MAX_TOKEN bytes; a longer line stops the scan. */
  predicate Fits(line: string) {
    Bytes(line) < MAX_TOKEN
  }

  /** The lines of a text: a newline ends a line, and the text after the last newline counts if not empty. */
  function RawLines(s: string): seq<string> {
    var parts := Split(s, '\n');
    if parts[|parts| - 1] == "" then parts[..|parts| - 1] else parts
  }

  function DropCR(line: string): string {
    if line != "" && line[|line| - 1] == '\r' then line[..|line| - 1] else line
  }

  /** What a loop over `scanner.Scan()` sees: lines up to the first that does not fit, without the
      carriage return of a CRLF ending. */
  function Scanned(lines: seq<string>): seq<string> {
    if lines == [] || !Fits(lines[0]) then [] else [DropCR(lines[0])] + Scanned(lines[1..])
  }

  predicate AllFit(lines: seq<string>) {
    forall l | l in lines :: Fits(l)
  }

  function ScanLines(s: string): seq<string> {
    Scanned(RawLines(s))
  }

  lemma {:induction false} ScannedAppend(lines: seq<string>, line: string)
    ensures Scanned(lines + [line]) ==
            if AllFit(lines + [line]) then Scanned(lines) + [DropCR(line)] else Scanned(lines)
  {
    var all := lines + [line];
    if lines == [] {
      assert all[1..] == [] && all == [line];
    } else {
      ScannedAppend(lines[1..], line);
      assert all[1..] == lines[1..] + [line];
      assert all == [lines[0]] + all[1..];
      assert AllFit(all) <==> Fits(lines[0]) && AllFit(all[1..]);
    }
  }

  /** When every line fits, the scan differs from the text only in carriage returns. */
  lemma {:induction false} ScannedAll(lines: seq<string>)
    requires AllFit(lines)
    ensures |Scanned(lines)| == |lines| && forall i | 0 <= i < |lines| :: Scanned(lines)[i] == DropCR(lines[i])
  {
    if lines != [] {
      assert lines == [lines[0]] + lines[1..];
      ScannedAll(lines[1..]);
    }
  }

  function WithCR(lines: seq<string>): (r: seq<string>)
    ensures |r| == |lines| && forall i | 0 <= i < |r| :: r[i] == lines[i] + "\r"
  {
    seq(|lines|, i requires 0 <= i < |lines| => lines[i] + "\r")
  }

  lemma DropAdded(line: string)
    ensures DropCR(line + "\r") == line
  {
  }

  /** Lines that end in a carriage return and a newline are scanned like lines that end in a newline alone. */
  lemma CarriageReturnsDropped(lines: seq<string>)
    requires AllFit(WithCR(lines)) && AllFit(lines) && forall l | l in lines :: DropCR(l) == l
    ensures Scanned(WithCR(lines)) == lines && Scanned(lines) == lines
  {
    hide Fits, Scanned, DropCR;
    ScannedAll(lines);
    ScannedAll(WithCR(lines));
    forall i | 0 <= i < |lines| ensures Scanned(WithCR(lines))[i] == lines[i] && Scanned(lines)[i] == lines[i] {
      DropAdded(lines[i]);
      assert lines[i] in lines;
    }
  }

  lemma {:induction false} ScannedLength(lines: seq<string>)
    ensures |Scanned(lines)| <= |lines|
    ensures |Scanned(lines)| == |lines| <==> AllFit(lines)
  {
    if lines != [] {
      ScannedLength(lines[1..]);
      assert lines == [lines[0]] + lines[1..];
      assert AllFit(lines) <==> Fits(lines[0]) && AllFit(lines[1..]);
    }
  }

  /** `ensureTrailingNewline`. */
  function EnsureTrailingNewline(s: string): string {
    if s == "" || s[|s| - 1] == '\n' then s else s + "\n"
  }

  /** A newline at the end of a text ends its last line. */
  lemma RawLinesEnded(body: string)
    ensures RawLines(body + "\n") == Split(body, '\n')
  {
    SplitEnded(body);
    hide Split;
    assert (Split(body, '\n') + [""])[..|Split(body, '\n')|] == Split(body, '\n');
  }

  lemma RawLinesOpen(s: string)
    requires s != "" && s[|s| - 1] != '\n'
    ensures RawLines(s) == Split(s, '\n')
  {
    LastPart(s, '\n');
    hide Split;
  }

  /** Appending a line to a text appends it to the lines. */
  lemma RawLinesAppend(s: string, line: string)
    requires '\n' !in line
    ensures RawLines(EnsureTrailingNewline(s) + line + "\n") == RawLines(s) + [line]
  {
    SplitWhole(line, '\n');
    if s == "" {
      hide Split;
      RawLinesEnded(line);
      assert EnsureTrailingNewline(s) + line + "\n" == line + "\n";
      assert RawLines("") == [] by { SplitWhole("", '\n'); }
    } else {
      var body := if s[|s| - 1] == '\n' then s[..|s| - 1] else s;
      hide Split, RawLines;
      if s[|s| - 1] == '\n' {
        RawLinesEnded(body);
        assert s == body + "\n";
      } else {
        RawLinesOpen(s);
      }
      SplitAppend(body, '\n', line);
      RawLinesEnded(body + "\n" + line);
      assert EnsureTrailingNewline(s) + line + "\n" == body + "\n" + line + "\n";
    }
  }

  lemma SplitEnded(body: string)
    ensures Split(body + "\n", '\n') == Split(body, '\n') + [""]
  {
    SplitAppend(body, '\n', "");
    assert body + "\n" + "" == body + "\n";
  }

  lemma {:induction false} LastPart(s: string, sep: char)
    requires s != "" && s[|s| - 1] != sep
    ensures var parts := Split(s, sep); parts[|parts| - 1] != ""
  {
    if |s| > 1 {
      LastPart(s[1..], sep);
    }
  }
}
