/** Inputs that the `pg_hba.conf` form lets through and its edits do not survive. */
module HbaExamples {
  import opened Hba
  import opened Text
  import opened Wrappers

  // ---------- white space that validation does not look for ----------

  lemma NoRules()
    ensures RulesOf("") == [] && RawLines("") == []
  {
    SplitWhole("", '\n');
  }

  lemma TabPasses()
    ensures Validate(AddHbaRuleInput("host", "a\U{0B}b", "u", "10.0.0.0/8", "md5")).None?
  {
    var r := AddHbaRuleInput("host", "a\U{0B}b", "u", "10.0.0.0/8", "md5");
    assert !Blank(r.address) by { assert r.address[0] == '1' && r.address[0] in r.address; }
    hide Validate, Blank;
    ValidIff(r);
  }

  /** A vertical tab passes the validation and splits the field it is in. */
  lemma VerticalTabSplitsField()
    ensures var r := AddHbaRuleInput("host", "a\U{0B}b", "u", "10.0.0.0/8", "md5");
            && Validate(r).None? && !SolidFields(r)
            && ReadRule(0, RuleLine(r)) != Some(Submitted(r, 0))
            && RulesOf(Appended("", r)) != [Submitted(r, 0)]
  {
    var r := AddHbaRuleInput("host", "a\U{0B}b", "u", "10.0.0.0/8", "md5");
    TabPasses();
    assert r.database[1] == '\U{0B}' && IsSpace('\U{0B}');
    hide RulesOf, Appended, RuleLine, ReadRule, TrimSpace, Validate;
    LineReadsBack(r, 0);
    NoRules();
    AddThenParse("", r);
    assert [] + [Submitted(r, 0)] == [Submitted(r, 0)];
  }

  // ---------- a method with options ----------

  /** PostgreSQL takes the fifth word for the method and what follows for its options; the list shows the last
      option as the method. */
  lemma OptionShownAsMethod()
    ensures var line := Join(["host", "all", "all", "10.0.0.0/8", "ldap", "ldapserver=x"], ' ');
            ReadRule(0, line) == Some(HbaRule(0, "host", "all", "all", "10.0.0.0/8", "ldapserver=x", line))
  {
    var words := ["host", "all", "all", "10.0.0.0/8", "ldap", "ldapserver=x"];
    assert Solid("host") && Solid("all") && Solid("10.0.0.0/8") && Solid("ldap") && Solid("ldapserver=x");
    hide Solid, ReadRule, Join;
    RuleOfWords(0, words, ' ');
  }

  // ---------- a line that the scanner cannot hold ----------

  /** A text of one ordinary line. */
  predicate OneLine(first: string) {
    first != "" && '\n' !in first && Fits(first) && DropCR(first) == first
  }

  lemma OneLineText(first: string)
    requires OneLine(first)
    ensures RawLines(first) == [first] && ScanLines(first) == [first]
  {
    SplitWhole(first, '\n');
    hide Fits, Split, DropCR;
    assert [first][1..] == [] && Scanned([]) == [];
  }

  /** A rule whose line does not fit is appended but not listed, and deleting the line before it deletes both. */
  lemma OverlongRuleIsLost(first: string, r: AddHbaRuleInput)
    requires OneLine(first) && Validate(r).None? && !Fits(RuleLine(r))
    ensures RulesOf(Appended(first, r)) == RulesOf(first)
    ensures RawLines(Appended(first, r)) == [first, RuleLine(r)]
    ensures ScanLines(Appended(first, r)) == [first] && Deleted(Appended(first, r), 0) == "\n"
  {
    hide OneLine, Bytes, Fits, RuleLine, ScanLines, RawLines, EnsureTrailingNewline, Validate, Rules;
    OneLineText(first);
    NoNewline(r);
    RawLinesAppend(first, RuleLine(r));
    ScanAfterAdd(first, r);
    assert [first] + [RuleLine(r)] == [first, RuleLine(r)];
    assert [first][..0] + [first][1..] == [];
  }

  function Repeated(c: char, n: nat): string {
    seq(n, i => c)
  }

  predicate Ascii(s: string) {
    forall i | 0 <= i < |s| :: s[i] < '\U{80}'
  }

  lemma {:induction false} AsciiBytes(s: string)
    requires Ascii(s)
    ensures Bytes(s) == |s|
  {
    if s != "" {
      AsciiBytes(s[1..]);
    }
  }

  /** The scanner takes lines of up to 65535 ASCII characters. */
  lemma AsciiFits(s: string)
    requires Ascii(s)
    ensures Fits(s) <==> |s| <= 65535
  {
    AsciiBytes(s);
    hide Bytes;
  }

  /** A rule the form lets through whose line has 65536 bytes. */
  function LongRule(): AddHbaRuleInput {
    AddHbaRuleInput("local", Repeated('d', 65520), "all", "", "trust")
  }

  lemma JoinFour(a: string, b: string, c: string, d: string)
    ensures Join([a, b, c, d], '\t') == a + ['\t'] + (b + ['\t'] + (c + ['\t'] + d))
  {
    assert [c, d][1..] == [d] && Join([d], '\t') == d;
    assert [b, c, d][1..] == [c, d] && Join([c, d], '\t') == c + ['\t'] + d;
    assert [a, b, c, d][1..] == [b, c, d] && Join([b, c, d], '\t') == b + ['\t'] + (c + ['\t'] + d);
  }

  lemma LongRuleLine()
    ensures Bytes(RuleLine(LongRule())) == 65536
  {
    var d := Repeated('d', 65520);
    JoinFour("local", d, "all", "trust");
    var line := "local" + ['\t'] + (d + ['\t'] + ("all" + ['\t'] + "trust"));
    assert RuleLine(LongRule()) == line && |line| == 65536;
    assert Ascii(line);
    hide RuleLine, LongRule, Repeated;
    AsciiBytes(line);
  }

  lemma LongRuleValid()
    ensures Validate(LongRule()).None? && SolidFields(LongRule())
  {
    var d := Repeated('d', 65520);
    assert d != "" && forall c | c in d :: c == 'd';
    assert !HasForbidden(d) && !HasForbidden("all") && !HasForbidden("");
  }

  /** The form lets it through, its fields are solid, and yet it is lost. */
  lemma LongRuleIsLost(first: string)
    requires OneLine(first)
    ensures Validate(LongRule()).None? && SolidFields(LongRule())
    ensures RulesOf(Appended(first, LongRule())) == RulesOf(first)
    ensures ScanLines(Appended(first, LongRule())) == [first] && Deleted(Appended(first, LongRule()), 0) == "\n"
  {
    hide OneLine, Bytes, RuleLine, ScanLines, RawLines, EnsureTrailingNewline, LongRule, Validate, SolidFields,
      Appended, RulesOf;
    LongRuleValid();
    LongRuleLine();
    OverlongRuleIsLost(first, LongRule());
  }
}
