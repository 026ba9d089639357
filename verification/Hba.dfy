/** The pg_hba.conf editor: the parser, the appending writer and the deleter. */
module Hba {
  import opened Wrappers
  import opened Text

  datatype HbaRule = HbaRule(line: nat, kind: string, database: string, userName: string,
                             address: string, authMethod: string, raw: string)

  datatype AddHbaRuleInput = AddHbaRuleInput(kind: string, database: string, userName: string,
                                             address: string, authMethod: string)

  datatype Error = InvalidKind | InvalidMethod | MissingName | MissingAddress | InvalidCharacter
                 | ReadFailed | WriteFailed | ReloadFailed | RuleNotFound

  /** The step of an edit that fails outside the code, if any. */
  datatype Io = Works | ReadFails | WriteFails | ReloadFails

  const ALLOWED_KINDS := {"local", "host", "hostssl", "hostnossl"}
  const ALLOWED_METHODS := {"trust", "reject", "scram-sha-256", "md5", "password", "cert"}

  // ---------- parsing ----------

  /** One trimmed line: a rule, or nothing for blanks, comments and lines with too few fields. */
  function ReadRule(idx: nat, line: string): Option<HbaRule> {
    if line == "" || line[0] == '#' then None
    else
      var fields := Fields(line);
      if |fields| < 4 then None
      else if fields[0] == "local" then
        Some(HbaRule(idx, fields[0], fields[1], fields[2], "", fields[|fields| - 1], line))
      else if |fields| >= 5 then
        Some(HbaRule(idx, fields[0], fields[1], fields[2], fields[3], fields[|fields| - 1], line))
      else None
  }

  predicate IsRule(line: string) {
    ReadRule(0, line).Some?
  }

  /** The rules of the scanned lines, numbered from zero. */
  function Rules(lines: seq<string>): seq<HbaRule> {
    if lines == [] then []
    else
      var rest := Rules(lines[..|lines| - 1]);
      var r := ReadRule(|rest|, TrimSpace(lines[|lines| - 1]));
      if r.Some? then rest + [r.value] else rest
  }

  function RulesOf(content: string): seq<HbaRule> {
    Rules(ScanLines(content))
  }

  /** One more scanned line adds at most one rule, numbered next. */
  lemma RulesAfterAdd(lines: seq<string>, line: string)
    ensures var r := ReadRule(|Rules(lines)|, TrimSpace(line));
            Rules(lines + [line]) == if r.Some? then Rules(lines) + [r.value] else Rules(lines)
  {
    assert (lines + [line])[..|lines|] == lines;
  }

  method ParseHbaRules(content: string) returns (rules: seq<HbaRule>)
    ensures rules == RulesOf(content)
  {
    rules := [];
    var idx := 0;
    var lines := ScanLines(content);
    for i := 0 to |lines|
      invariant rules == Rules(lines[..i]) && idx == |rules|
    {
      assert lines[..i + 1] == lines[..i] + [lines[i]];
      RulesAfterAdd(lines[..i], lines[i]);
      var line := TrimSpace(lines[i]);
      var r := ReadRule(idx, line);
      if r.Some? {
        rules := rules + [r.value];
        idx := idx + 1;
      }
    }
    assert lines[..|lines|] == lines;
  }

  /** The trimmed rule lines among `lines`, in order. */
  function Raws(lines: seq<string>): seq<string> {
    if lines == [] then []
    else
      var rest := Raws(lines[..|lines| - 1]);
      var line := TrimSpace(lines[|lines| - 1]);
      if IsRule(line) then rest + [line] else rest
  }

  lemma IndexFree(idx: nat, line: string)
    ensures ReadRule(idx, line).Some? <==> IsRule(line)
    ensures IsRule(line) ==> ReadRule(idx, line).value == ReadRule(0, line).value.(line := idx)
  {
  }

  lemma {:induction false} SameLength(lines: seq<string>)
    ensures |Rules(lines)| == |Raws(lines)|
  {
    if lines != [] {
      var init := lines[..|lines| - 1];
      SameLength(init);
      IndexFree(|Rules(init)|, TrimSpace(lines[|lines| - 1]));
      hide ReadRule, IsRule;
    }
  }

  /** The rules are the rule lines, each read at its position. */
  lemma {:induction false} RuleAt(lines: seq<string>, i: nat)
    requires i < |Raws(lines)|
    ensures i < |Rules(lines)| && ReadRule(i, Raws(lines)[i]) == Some(Rules(lines)[i])
  {
    var init := lines[..|lines| - 1];
    SameLength(init);
    IndexFree(|Rules(init)|, TrimSpace(lines[|lines| - 1]));
    hide ReadRule, IsRule;
    if i < |Raws(init)| { RuleAt(init, i); }
  }

  lemma SameRaws(a: seq<string>, b: seq<string>)
    requires Raws(a) == Raws(b)
    ensures Rules(a) == Rules(b)
  {
    hide Rules, Raws, ReadRule;
    SameLength(a);
    SameLength(b);
    forall i | 0 <= i < |Raws(a)| ensures Rules(a)[i] == Rules(b)[i] {
      RuleAt(a, i);
      RuleAt(b, i);
    }
  }

  /** A blank line or a comment, wherever it stands, is as good as not there. */
  lemma CommentIgnored(a: seq<string>, c: string, b: seq<string>)
    requires TrimSpace(c) == "" || TrimSpace(c)[0] == '#'
    ensures Rules(a + [c] + b) == Rules(a + b) && Raws(a + [c] + b) == Raws(a + b)
  {
    assert !IsRule(TrimSpace(c));
    assert Raws([c]) == [] by { assert [c][..0] == []; }
    hide Raws, Rules, ReadRule, IsRule;
    RawsAppend(a + [c], b);
    RawsAppend(a, [c]);
    RawsAppend(a, b);
    assert Raws(a) + [] == Raws(a);
    SameRaws(a + [c] + b, a + b);
  }

  predicate Words(words: seq<string>) {
    forall i | 0 <= i < |words| :: words[i] != "" && Solid(words[i])
  }

  /** What is read from the words of a line that is no comment: a local rule from four words on, any other from
      five on; the last word is the method, whatever stands between. */
  lemma RuleOfWords(idx: nat, words: seq<string>, sep: char)
    requires Words(words) && words != [] && words[0][0] != '#' && IsSpace(sep)
    ensures var line := Join(words, sep);
            ReadRule(idx, line) ==
              if words[0] == "local" && 4 <= |words|
              then Some(HbaRule(idx, "local", words[1], words[2], "", words[|words| - 1], line))
              else if words[0] != "local" && 5 <= |words|
              then Some(HbaRule(idx, words[0], words[1], words[2], words[3], words[|words| - 1], line))
              else None
  {
    FieldsOfJoin(words, sep);
    var line := Join(words, sep);
    assert line != "" && line[0] == words[0][0];
    hide Fields, Join, IsSpace;
  }

  // ---------- first match wins ----------

  /** The authentication method of the first rule that matches the connection. */
  function Decide(rules: seq<HbaRule>, matches: HbaRule -> bool): Option<string> {
    if rules == [] then None
    else if matches(rules[0]) then Some(rules[0].authMethod)
    else Decide(rules[1..], matches)
  }

  /** `k` is the first rule that matches. */
  ghost predicate FirstMatching(rules: seq<HbaRule>, matches: HbaRule -> bool, k: nat) {
    k < |rules| && matches(rules[k]) && forall j | 0 <= j < k :: !matches(rules[j])
  }

  /** A connection is decided exactly by the method of the first rule that matches it. */
  lemma {:induction false} DecideIff(rules: seq<HbaRule>, matches: HbaRule -> bool, authMethod: string)
    ensures Decide(rules, matches) == Some(authMethod)
       <==> exists k: nat :: FirstMatching(rules, matches, k) && rules[k].authMethod == authMethod
  {
    if rules != [] {
      if matches(rules[0]) {
        assert FirstMatching(rules, matches, 0);
      } else {
        DecideIff(rules[1..], matches, authMethod);
        if k: nat :| FirstMatching(rules[1..], matches, k) && rules[1..][k].authMethod == authMethod {
          assert FirstMatching(rules, matches, k + 1);
        }
        if k: nat :| FirstMatching(rules, matches, k) && rules[k].authMethod == authMethod {
          assert FirstMatching(rules[1..], matches, k - 1);
        }
      }
    }
  }

  lemma {:induction false} DecideAppend(rules: seq<HbaRule>, more: seq<HbaRule>, matches: HbaRule -> bool)
    ensures Decide(rules + more, matches) ==
            if Decide(rules, matches).Some? then Decide(rules, matches) else Decide(more, matches)
  {
    if rules == [] {
      assert rules + more == more;
    } else {
      assert (rules + more)[1..] == rules[1..] + more;
      DecideAppend(rules[1..], more, matches);
    }
  }

  // ---------- the edits ----------

  predicate HasForbidden(f: string) {
    exists c :: c in f && c in {'\n', '\r', '#', ' ', '\t'}
  }

  function RuleLine(r: AddHbaRuleInput): string {
    if r.kind == "local" then Join(["local", r.database, r.userName, r.authMethod], '\t')
    else Join([r.kind, r.database, r.userName, r.address, r.authMethod], '\t')
  }

  /** The validation of AddHbaRule, in its order. */
  function Validate(r: AddHbaRuleInput): Option<Error> {
    if r.kind !in ALLOWED_KINDS then Some(InvalidKind)
    else if r.authMethod !in ALLOWED_METHODS then Some(InvalidMethod)
    else if r.database == "" || r.userName == "" then Some(MissingName)
    else if r.kind != "local" && TrimSpace(r.address) == "" then Some(MissingAddress)
    else if HasForbidden(r.database) || HasForbidden(r.userName) || HasForbidden(r.address) then Some(InvalidCharacter)
    else None
  }

  /** Which forms are let through, exactly: known words, names given, an address that is more than white space
      unless the rule is local, and none of five characters in the three free fields. */
  lemma ValidIff(r: AddHbaRuleInput)
    ensures Validate(r).None? <==>
              && r.kind in {"local", "host", "hostssl", "hostnossl"}
              && r.authMethod in {"trust", "reject", "scram-sha-256", "md5", "password", "cert"}
              && r.database != "" && r.userName != "" && (r.kind != "local" ==> !Blank(r.address))
              && (forall c | c in {'\n', '\r', '#', ' ', '\t'} :: c !in r.database && c !in r.userName && c !in r.address)
  {
    TrimEmptyIff(r.address);
    hide TrimSpace, Blank;
  }

  function Appended(content: string, r: AddHbaRuleInput): string {
    EnsureTrailingNewline(content) + RuleLine(r) + "\n"
  }

  /** `k` is the first line that, trimmed, reads `key`. */
  predicate FirstMatch(lines: seq<string>, key: string, k: nat) {
    && k < |lines| && TrimSpace(lines[k]) == key
    && forall j | 0 <= j < k :: TrimSpace(lines[j]) != key
  }

  /** The file that DeleteHbaRule writes when line `k` is the match. */
  function Deleted(content: string, k: nat): string
    requires k < |ScanLines(content)|
  {
    var lines := ScanLines(content);
    Join(lines[..k] + lines[k + 1..], '\n') + "\n"
  }

  class HbaFile {
    var content: string

    constructor (content: string)
      ensures this.content == content
    {
      this.content := content;
    }

    method AddHbaRule(r: AddHbaRuleInput, io: Io) returns (result: Result<(), Error>)
      modifies this
      ensures Validate(r).Some? ==> result == Err(Validate(r).value) && content == old(content)
      ensures Validate(r).None? && io in {ReadFails, WriteFails} ==> result.Err? && content == old(content)
      ensures Validate(r).None? && io in {Works, ReloadFails} ==> content == Appended(old(content), r)
      ensures result == Ok(()) <==> Validate(r).None? && io == Works
    {
      if r.kind !in ALLOWED_KINDS { return Err(InvalidKind); }
      if r.authMethod !in ALLOWED_METHODS { return Err(InvalidMethod); }
      if r.database == "" || r.userName == "" { return Err(MissingName); }
      if r.kind != "local" && TrimSpace(r.address) == "" { return Err(MissingAddress); }
      var fields := [r.database, r.userName, r.address];
      for i := 0 to 3
        invariant forall j | 0 <= j < i :: !HasForbidden(fields[j])
      {
        if exists c | c in fields[i] :: c in {'\n', '\r', '#', ' ', '\t'} {
          assert HasForbidden(fields[i]);
          return Err(InvalidCharacter);
        }
      }
      assert forall j | 0 <= j < 3 :: !HasForbidden(fields[j]);
      assert fields[0] == r.database && fields[1] == r.userName && fields[2] == r.address;
      if io == ReadFails { return Err(ReadFailed); }
      var line := RuleLine(r);
      var newContent := EnsureTrailingNewline(content) + line + "\n";
      if io == WriteFails { return Err(WriteFailed); }
      content := newContent;
      if io == ReloadFails { return Err(ReloadFailed); }
      return Ok(());
    }

    /** `k` is the scanned line that was removed, when one was. */
    method DeleteHbaRule(raw: string, io: Io) returns (result: Result<(), Error>, ghost k: nat)
      modifies this
      ensures result == Err(RuleNotFound) <==>
              io != ReadFails && forall i | 0 <= i < |ScanLines(old(content))| :: TrimSpace(ScanLines(old(content))[i]) != TrimSpace(raw)
      ensures result == Err(RuleNotFound) || io in {ReadFails, WriteFails} ==> content == old(content)
      ensures result != Err(RuleNotFound) && io in {Works, ReloadFails} ==>
                FirstMatch(ScanLines(old(content)), TrimSpace(raw), k) && content == Deleted(old(content), k)
      ensures result == Ok(()) <==> io == Works && result != Err(RuleNotFound)
    {
      hide ScanLines, TrimSpace, Join;
      k := 0;
      if io == ReadFails { return Err(ReadFailed), k; }
      var lines := ScanLines(content);
      var kept := [];
      var removed := false;
      for i := 0 to |lines|
        invariant !removed ==> kept == lines[..i] && forall j | 0 <= j < i :: TrimSpace(lines[j]) != TrimSpace(raw)
        invariant removed ==> k < i && FirstMatch(lines, TrimSpace(raw), k) && kept == lines[..k] + lines[k + 1..i]
      {
        if !removed && TrimSpace(lines[i]) == TrimSpace(raw) {
          removed := true;
          k := i;
          assert lines[k + 1..i + 1] == [];
        } else {
          kept := kept + [lines[i]];
          assert removed ==> lines[k + 1..i] + [lines[i]] == lines[k + 1..i + 1];
        }
      }
      if !removed { return Err(RuleNotFound), k; }
      assert lines[k + 1..|lines|] == lines[k + 1..];
      var newContent := Join(kept, '\n') + "\n";
      if io == WriteFails { return Err(WriteFailed), k; }
      content := newContent;
      if io == ReloadFails { return Err(ReloadFailed), k; }
      return Ok(()), k;
    }
  }

  // ---------- what adding means ----------

  lemma {:induction false} RawsAppend(a: seq<string>, b: seq<string>)
    ensures Raws(a + b) == Raws(a) + Raws(b)
  {
    if b == [] {
      assert a + b == a;
    } else {
      var init := b[..|b| - 1];
      assert (a + b)[..|a + b| - 1] == a + init;
      RawsAppend(a, init);
    }
  }

  /** The rule the form describes, as entry number `idx`. */
  function Submitted(r: AddHbaRuleInput, idx: nat): HbaRule {
    HbaRule(idx, r.kind, r.database, r.userName, if r.kind == "local" then "" else r.address, r.authMethod, RuleLine(r))
  }

  /** No white space at all in the fields that are written: stronger than what validation checks. */
  predicate SolidFields(r: AddHbaRuleInput) {
    Solid(r.database) && Solid(r.userName) && (r.kind != "local" ==> Solid(r.address))
  }

  lemma KindIsWord(kind: string)
    requires kind in ALLOWED_KINDS
    ensures kind != "" && Solid(kind) && kind[0] == if kind == "local" then 'l' else 'h'
  {
  }

  lemma MethodIsWord(m: string)
    requires m in ALLOWED_METHODS
    ensures m != "" && Solid(m)
  {
    assert Solid("trust") && Solid("reject") && Solid("md5") && Solid("password") && Solid("cert");
    assert Solid("scram-sha-256");
    hide Solid;
  }

  lemma AllowedWords(r: AddHbaRuleInput)
    requires Validate(r).None?
    ensures r.kind != "" && Solid(r.kind) && r.authMethod != "" && Solid(r.authMethod) && r.kind[0] != '#'
    ensures r.kind != "local" ==> r.address != ""
    ensures '\n' !in RuleLine(r)
  {
    KindIsWord(r.kind);
    MethodIsWord(r.authMethod);
    NoNewline(r);
    hide Solid, RuleLine;
  }

  lemma NoNewline(r: AddHbaRuleInput)
    requires Validate(r).None?
    ensures '\n' !in RuleLine(r)
  {
    CleanFields(r);
    hide Join, Validate;
    var local := ["local", r.database, r.userName, r.authMethod];
    var remote := [r.kind, r.database, r.userName, r.address, r.authMethod];
    if r.kind == "local" { JoinAvoids(local, '\t', '\n'); } else { JoinAvoids(remote, '\t', '\n'); }
  }

  lemma CleanFields(r: AddHbaRuleInput)
    requires Validate(r).None?
    ensures '\n' !in r.database && '\n' !in r.userName && '\n' !in r.address
    ensures '\n' !in r.kind && '\n' !in r.authMethod
  {
    ValidIff(r);
    KindIsWord(r.kind);
    MethodIsWord(r.authMethod);
    assert IsSpace('\n');
    hide Validate, IsSpace, HasForbidden, Blank;
  }

  lemma {:induction false} JoinAvoids(parts: seq<string>, sep: char, c: char)
    requires sep != c && forall i | 0 <= i < |parts| :: c !in parts[i]
    ensures c !in Join(parts, sep)
  {
    if |parts| > 1 { JoinAvoids(parts[1..], sep, c); }
  }

  lemma {:induction false} JoinLast(parts: seq<string>, sep: char)
    requires parts != [] && parts[|parts| - 1] != ""
    ensures var s := Join(parts, sep); s != "" && s[|s| - 1] == parts[|parts| - 1][|parts[|parts| - 1]| - 1]
  {
    if |parts| > 1 { JoinLast(parts[1..], sep); }
  }

  lemma LineIsTrimmed(r: AddHbaRuleInput)
    requires Validate(r).None?
    ensures TrimSpace(RuleLine(r)) == RuleLine(r) != "" && RuleLine(r)[0] != '#' && DropCR(RuleLine(r)) == RuleLine(r)
  {
    AllowedWords(r);
    var parts := if r.kind == "local" then ["local", r.database, r.userName, r.authMethod]
                 else [r.kind, r.database, r.userName, r.address, r.authMethod];
    JoinLast(parts, '\t');
    var line := RuleLine(r);
    assert line[|line| - 1] == r.authMethod[|r.authMethod| - 1] && line[|line| - 1] in r.authMethod;
    assert Join(parts, '\t') == parts[0] + ['\t'] + Join(parts[1..], '\t');
    assert line[0] == r.kind[0] && line[0] in r.kind;
    TrimNothing(line);
  }

  /** The written line reads back as the submitted rule if and only if its fields are solid. */
  lemma LineReadsBack(r: AddHbaRuleInput, idx: nat)
    requires Validate(r).None?
    ensures ReadRule(idx, RuleLine(r)) == Some(Submitted(r, idx)) <==> SolidFields(r)
  {
    AllowedWords(r);
    LineIsTrimmed(r);
    var line := RuleLine(r);
    var parts := if r.kind == "local" then ["local", r.database, r.userName, r.authMethod]
                 else [r.kind, r.database, r.userName, r.address, r.authMethod];
    if SolidFields(r) {
      FieldsOfJoin(parts, '\t');
    }
    FieldsSolid(line);
  }

  /** Main result: parsing the edited file yields the old rules plus exactly the submitted one, if and
      only if the written fields hold no white space of any kind and every line of the file, the new
      one included, fits the scanner. */
  lemma AddThenParse(content: string, r: AddHbaRuleInput)
    requires Validate(r).None?
    ensures RulesOf(Appended(content, r)) == RulesOf(content) + [Submitted(r, |RulesOf(content)|)] <==>
            SolidFields(r) && AllFit(RawLines(content)) && Fits(RuleLine(r))
  {
    AllowedWords(r);
    LineIsTrimmed(r);
    var lines := ScanLines(content);
    LineReadsBack(r, |Rules(lines)|);
    LineIsTrimmed(r);
    ScanAfterAdd(content, r);
    RulesAfterAdd(lines, RuleLine(r));
    var rules := Rules(lines);
    hide ReadRule, RuleLine, Rules, ScanLines, RawLines, SolidFields, Appended, Submitted;
    var want, got := Submitted(r, |rules|), ReadRule(|rules|, RuleLine(r));
    AppendOne(rules, want, if got.Some? then got.value else want);
  }

  lemma AppendOne<T>(s: seq<T>, a: T, b: T)
    ensures s + [a] == s + [b] <==> a == b
    ensures s != s + [a]
  {
    assert (s + [a])[|s|] == a && (s + [b])[|s|] == b;
  }

  /** The scan of the edited file: one more line, or the same lines when something does not fit. */
  lemma ScanAfterAdd(content: string, r: AddHbaRuleInput)
    requires Validate(r).None?
    ensures ScanLines(Appended(content, r)) ==
            if AllFit(RawLines(content)) && Fits(RuleLine(r)) then ScanLines(content) + [RuleLine(r)] else ScanLines(content)
  {
    AllowedWords(r);
    LineIsTrimmed(r);
    var line := RuleLine(r);
    RawLinesAppend(content, line);
    ScannedAppend(RawLines(content), line);
    assert AllFit(RawLines(content) + [line]) <==> AllFit(RawLines(content)) && Fits(line) by {
      assert line in RawLines(content) + [line];
      assert forall l | l in RawLines(content) :: l in RawLines(content) + [line];
    }
  }

  /** Adding never changes the decision for a connection that an earlier rule already matched. */
  lemma AddKeepsDecisions(content: string, input: AddHbaRuleInput, matches: HbaRule -> bool)
    requires Validate(input).None? && Decide(RulesOf(content), matches).Some?
    ensures Decide(RulesOf(Appended(content, input)), matches) == Decide(RulesOf(content), matches)
  {
    LineIsTrimmed(input);
    ScanAfterAdd(content, input);
    var lines, line := ScanLines(content), RuleLine(input);
    RulesAfterAdd(lines, line);
    var r := ReadRule(|Rules(lines)|, line);
    if r.Some? { DecideAppend(Rules(lines), [r.value], matches); }
    hide ReadRule, RuleLine, Rules, Scanned, RawLines, Decide, Appended;
  }

  // ---------- what deleting means ----------

  lemma {:induction false} ScannedLines(lines: seq<string>)
    requires forall i | 0 <= i < |lines| :: '\n' !in lines[i]
    ensures forall i | 0 <= i < |Scanned(lines)| :: '\n' !in Scanned(lines)[i] && Fits(Scanned(lines)[i])
  {
    if lines != [] && Fits(lines[0]) {
      ScannedLines(lines[1..]);
      DropFits(lines[0]);
    }
  }

  lemma {:induction false} DropFits(line: string)
    ensures Bytes(DropCR(line)) <= Bytes(line)
  {
    if |line| > 1 && line[|line| - 1] == '\r' {
      assert DropCR(line)[1..] == DropCR(line[1..]);
      DropFits(line[1..]);
    }
  }

  lemma ScanLinesClean(content: string)
    ensures forall i | 0 <= i < |ScanLines(content)| :: '\n' !in ScanLines(content)[i] && Fits(ScanLines(content)[i])
  {
    PartsHaveNoSeparator(content, '\n');
    ScannedLines(RawLines(content));
  }

  /** Writing lines back and scanning them gives lines that read the same once trimmed. */
  lemma RewrittenLines(lines: seq<string>)
    requires forall i | 0 <= i < |lines| :: '\n' !in lines[i] && Fits(lines[i])
    ensures ScanLines(Join(lines, '\n') + "\n") == Scanned(if lines == [] then [""] else lines)
  {
    var body := Join(lines, '\n');
    SplitAppend(body, '\n', "");
    assert body + "\n" + "" == body + "\n";
    if lines == [] { SplitWhole("", '\n'); } else { SplitJoin(lines, '\n'); }
  }

  lemma {:induction false} ScannedRaws(lines: seq<string>)
    requires AllFit(lines)
    ensures Raws(Scanned(lines)) == Raws(lines)
  {
    if lines != [] {
      var init, last := lines[..|lines| - 1], lines[|lines| - 1];
      assert lines == init + [last];
      ScannedRaws(init);
      ScannedAppend(init, last);
      assert (Scanned(init) + [DropCR(last)])[..|Scanned(init)|] == Scanned(init);
      if last != "" && last[|last| - 1] == '\r' { TrimDropLast(last); }
    }
  }

  lemma RawsOfRewritten(lines: seq<string>)
    requires forall i | 0 <= i < |lines| :: '\n' !in lines[i] && Fits(lines[i])
    ensures Raws(ScanLines(Join(lines, '\n') + "\n")) == Raws(lines)
  {
    RewrittenLines(lines);
    if lines == [] {
      BlankIsNoRule();
      assert Scanned([""]) == [""] && [""][..0] == [];
    } else {
      ScannedRaws(lines);
    }
  }

  lemma BlankIsNoRule()
    ensures Raws([""]) == [] && Fits("")
  {
    assert [""][..0] == [];
  }

  lemma {:induction false} KeyNotInRaws(lines: seq<string>, key: string)
    requires forall j | 0 <= j < |lines| :: TrimSpace(lines[j]) != key
    ensures key !in Raws(lines)
  {
    if lines != [] { KeyNotInRaws(lines[..|lines| - 1], key); }
  }

  /** Main result: deleting removes exactly the first rule whose line reads `key`, keeps every other
      scanned rule in order, and leaves the rules alone when `key` is a comment or no rule at all. */
  lemma DeleteThenParse(content: string, key: string, k: nat) returns (n: nat)
    requires FirstMatch(ScanLines(content), key, k)
    ensures Removed(Raws(ScanLines(content)), Raws(ScanLines(Deleted(content, k))), key, n)
  {
    var lines := ScanLines(content);
    ScanLinesClean(content);
    RawsOfRewritten(lines[..k] + lines[k + 1..]);
    n := |Raws(lines[..k])|;
    RawsWithout(lines, key, k);
  }

  /** `after` is `before` without its first `key`, entry `n`; a key that is no rule removes nothing. */
  ghost predicate Removed(before: seq<string>, after: seq<string>, key: string, n: nat) {
    if IsRule(key) then
      n < |before| && before[n] == key && key !in before[..n] && after == before[..n] + before[n + 1..]
    else after == before
  }

  lemma RawsWithout(lines: seq<string>, key: string, k: nat)
    requires FirstMatch(lines, key, k)
    ensures Removed(Raws(lines), Raws(lines[..k] + lines[k + 1..]), key, |Raws(lines[..k])|)
  {
    hide Raws, IsRule, Removed, TrimSpace;
    var left, right := lines[..k], lines[k + 1..];
    RawsAppend(left, right);
    RawsAppend(left, [lines[k]] + right);
    RawsAppend([lines[k]], right);
    KeyNotInRaws(left, key);
    OneRaw(lines[k]);
    assert lines == left + ([lines[k]] + right);
    RemovedMiddle(Raws(left), Raws([lines[k]]), Raws(right), key);
  }

  lemma OneRaw(line: string)
    ensures Raws([line]) == if IsRule(TrimSpace(line)) then [TrimSpace(line)] else []
  {
    assert [line][..0] == [];
  }

  lemma RemovedMiddle(left: seq<string>, one: seq<string>, right: seq<string>, key: string)
    requires key !in left && one == if IsRule(key) then [key] else []
    ensures Removed(left + (one + right), left + right, key, |left|)
  {
    hide IsRule;
    var before := left + (one + right);
    assert before[..|left|] == left;
    if one != [] { assert before[|left| + 1..] == right; }
  }

  /** All lines of the file but line `k`, without the carriage returns of CRLF endings; an emptied
      file is written as one blank line. */
  function OtherLines(content: string, k: nat): seq<string>
    requires k < |RawLines(content)|
  {
    var lines := RawLines(content);
    var clean := seq(|lines|, i requires 0 <= i < |lines| => DropCR(lines[i]));
    if |lines| == 1 then [""] else clean[..k] + clean[k + 1..]
  }

  lemma WrittenLines(content: string, k: nat)
    requires k < |ScanLines(content)|
    ensures var lines := ScanLines(content);
            RawLines(Deleted(content, k)) == if |lines| == 1 then [""] else lines[..k] + lines[k + 1..]
  {
    var lines := ScanLines(content);
    var kept := lines[..k] + lines[k + 1..];
    ScanLinesClean(content);
    var body := Join(kept, '\n');
    SplitAppend(body, '\n', "");
    assert body + "\n" + "" == body + "\n";
    if kept == [] { SplitWhole("", '\n'); } else { SplitJoin(kept, '\n'); }
  }

  /** Main result: a deletion keeps all other lines of the file if and only if every line fits the
      scanner; the code ignores the scanner's error, so everything from an over-long line on is lost. */
  lemma DeleteKeepsOthersIff(content: string, k: nat)
    requires k < |ScanLines(content)| <= |RawLines(content)|
    ensures RawLines(Deleted(content, k)) == OtherLines(content, k) <==> AllFit(RawLines(content))
  {
    var raw, lines := RawLines(content), ScanLines(content);
    WrittenLines(content, k);
    ScannedLength(raw);
    if AllFit(raw) {
      ScannedAll(raw);
      assert lines == seq(|raw|, i requires 0 <= i < |raw| => DropCR(raw[i]));
    } else if |lines| == 1 && |raw| == 2 {
      SecondTooLong(raw);
      assert OtherLines(content, k) == [DropCR(raw[1])];
    }
  }

  lemma SecondTooLong(raw: seq<string>)
    requires |raw| == 2 && |Scanned(raw)| == 1
    ensures DropCR(raw[1]) != ""
  {
    assert raw[1..][0] == raw[1];
    assert !Fits(raw[1]);
    var l := raw[1];
    if l != "" && l[1..] == "" { assert Bytes(l) == Utf8Length(l[0]); }
  }

  /** Deleting a rule just added restores the rules, when no earlier line already read the same. */
  lemma AddThenDelete(content: string, r: AddHbaRuleInput, k: nat)
    requires Validate(r).None? && AllFit(RawLines(content)) && Fits(RuleLine(r))
    requires forall l | l in ScanLines(content) :: TrimSpace(l) != RuleLine(r)
    requires FirstMatch(ScanLines(Appended(content, r)), RuleLine(r), k)
    ensures RulesOf(Deleted(Appended(content, r), k)) == RulesOf(content)
  {
    AllowedWords(r);
    hide ScanLines, RuleLine, Raws, Rules, RawLines, Appended, Validate, SolidFields, TrimSpace, Fits;
    LineIsTrimmed(r);
    var lines, line := ScanLines(content), RuleLine(r);
    ScanAfterAdd(content, r);
    OnlyLast(lines, line, k);
    ScanLinesClean(content);
    RawsOfRewritten(lines);
    SameRaws(ScanLines(Deleted(Appended(content, r), k)), lines);
  }

  lemma OnlyLast(lines: seq<string>, line: string, k: nat)
    requires FirstMatch(lines + [line], line, k) && forall l | l in lines :: TrimSpace(l) != line
    ensures (lines + [line])[..k] + (lines + [line])[k + 1..] == lines
  {
    hide TrimSpace;
    var edited := lines + [line];
    assert forall j | 0 <= j < |lines| :: edited[j] == lines[j] && lines[j] in lines;
    assert k == |lines|;
  }
}
