/** PostgreSQL's LIKE and ILIKE patterns (section 9.7.1 of the PostgreSQL documentation), with case folded
    for ASCII letters. */
module LikePattern {
  function FoldChar(c: char): char {
    if 'A' <= c <= 'Z' then (c as int + 32) as char else c
  }

  /** Two characters are alike to ILIKE if they are the same or the two cases of one ASCII letter. */
  lemma FoldCharIff(c: char, d: char)
    ensures FoldChar(c) == FoldChar(d) <==>
              || c == d
              || ('A' <= c <= 'Z' && d as int == c as int + ('a' as int - 'A' as int))
              || ('A' <= d <= 'Z' && c as int == d as int + ('a' as int - 'A' as int))
  {
  }

  function Fold(s: string): (r: string)
    ensures |r| == |s| && forall i | 0 <= i < |s| :: r[i] == FoldChar(s[i])
  {
    seq(|s|, i requires 0 <= i < |s| => FoldChar(s[i]))
  }

  /** '%' stands for any text, '_' for one character, '\' makes the next character literal. */
  predicate Like(s: string, p: string)
    decreases |p|, |s|
  {
    if p == "" then s == ""
    else if p[0] == '%' then Like(s, p[1..]) || (s != "" && Like(s[1..], p))
    else if p[0] == '_' then s != "" && Like(s[1..], p[1..])
    else if p[0] == '\\' then |p| > 1 && s != "" && s[0] == p[1] && Like(s[1..], p[2..])
    else s != "" && s[0] == p[0] && Like(s[1..], p[1..])
  }

  predicate ILike(s: string, p: string) {
    Like(Fold(s), Fold(p))
  }

  function ContainsPattern(value: string): string {
    "%" + value + "%"
  }

  predicate Plain(v: string) {
    '%' !in v && '_' !in v && '\\' !in v
  }

  predicate Contains(s: string, v: string) {
    exists i :: 0 <= i <= |s| - |v| && s[i..][..|v|] == v
  }

  // ---------- a value without special characters ----------

  lemma {:induction false} AnyTail(s: string)
    ensures Like(s, "%")
  {
    assert Like("", "%"[1..]);
    if s != "" { AnyTail(s[1..]); }
  }

  /** A plain value followed by '%' matches exactly the texts it is a prefix of. */
  lemma {:induction false} PlainPrefix(s: string, v: string)
    requires Plain(v)
    ensures Like(s, v + "%") <==> |v| <= |s| && s[..|v|] == v
  {
    if v == "" {
      AnyTail(s);
      assert v + "%" == "%";
    } else {
      assert (v + "%")[1..] == v[1..] + "%";
      if s != "" && s[0] == v[0] {
        PlainPrefix(s[1..], v[1..]);
        assert |v| <= |s| ==> s[..|v|] == [s[0]] + s[1..][..|v| - 1];
        assert v == [v[0]] + v[1..];
      }
    }
  }

  lemma ContainsStep(s: string, v: string)
    requires s != ""
    ensures Contains(s, v) <==> (|v| <= |s| && s[..|v|] == v) || Contains(s[1..], v)
  {
    if |v| <= |s| && s[..|v|] == v {
      assert s[0..] == s;
    }
    if Contains(s[1..], v) {
      var i :| 0 <= i <= |s[1..]| - |v| && s[1..][i..][..|v|] == v;
      assert s[i + 1..] == s[1..][i..];
    }
    if Contains(s, v) {
      var i :| 0 <= i <= |s| - |v| && s[i..][..|v|] == v;
      if i == 0 {
        assert s[0..] == s;
      } else {
        assert s[i..] == s[1..][i - 1..];
      }
    }
  }

  lemma {:induction false} PlainContains(s: string, v: string)
    requires Plain(v)
    ensures Like(s, ContainsPattern(v)) <==> Contains(s, v)
  {
    var p := ContainsPattern(v);
    assert p[0] == '%' && p[1..] == v + "%";
    PlainPrefix(s, v);
    if s == "" {
      assert s[0..] == s;
      assert Contains(s, v) ==> v == "";
      if v == "" { assert s[0..][..0] == v; }
    } else {
      PlainContains(s[1..], v);
      ContainsStep(s, v);
    }
  }

  // ---------- a value with special characters ----------

  /** A text the pattern matches, with nothing where it has '%'. */
  function Instance(p: string): string
    decreases |p|
  {
    if p == "" then ""
    else if p[0] == '%' then Instance(p[1..])
    else if p[0] == '_' then "x" + Instance(p[1..])
    else if p[0] == '\\' then if |p| > 1 then [p[1]] + Instance(p[2..]) else ""
    else [p[0]] + Instance(p[1..])
  }

  /** No escape character is left dangling at the end. */
  predicate Complete(p: string)
    decreases |p|
  {
    p == "" || if p[0] == '\\' then |p| > 1 && Complete(p[2..]) else Complete(p[1..])
  }

  lemma {:induction false} InstanceMatches(p: string)
    requires Complete(p)
    ensures Like(Instance(p), p)
    decreases |p|
  {
    if p != "" {
      InstanceMatches(if p[0] == '\\' then p[2..] else p[1..]);
      var s := Instance(p);
      assert p[0] != '%' ==> s[1..] == Instance(if p[0] == '\\' then p[2..] else p[1..]);
    }
  }

  /** The instance of a value with a special character is no longer than the value and differs from it. */
  lemma {:induction false} InstanceDiffers(v: string)
    ensures Complete(v + "%")
    ensures |Instance(v + "%")| <= |v|
    ensures Instance(v + "%") == v ==> Plain(v)
    decreases |v|
  {
    var p := v + "%";
    if v == "" {
      assert p[1..] == "";
    } else if v[0] == '\\' && |v| == 1 {
      assert p == "\\%" && p[2..] == "";
    } else if v[0] == '\\' {
      assert p[2..] == v[2..] + "%";
      InstanceDiffers(v[2..]);
    } else {
      assert p[1..] == v[1..] + "%";
      InstanceDiffers(v[1..]);
      assert v == [v[0]] + v[1..];
    }
  }

  predicate Folded(s: string) {
    forall c | c in s :: FoldChar(c) == c
  }

  lemma FoldedIsFixed(s: string)
    ensures Folded(Fold(s))
    ensures Folded(s) ==> Fold(s) == s
  {
  }

  lemma {:induction false} InstanceFolded(p: string)
    requires Folded(p)
    ensures Folded(Instance(p))
    decreases |p|
  {
    if p != "" {
      InstanceFolded(p[if p[0] == '\\' && |p| > 1 then 2 else 1..]);
    }
  }

  lemma FoldPlain(v: string)
    ensures Plain(Fold(v)) <==> Plain(v)
  {
    var f := Fold(v);
    forall i | 0 <= i < |v|
      ensures f[i] == '%' <==> v[i] == '%'
      ensures f[i] == '_' <==> v[i] == '_'
      ensures f[i] == '\\' <==> v[i] == '\\'
    {
    }
    assert forall c | c in {'%', '_', '\\'} && c in v :: c in f by {
      forall c | c in {'%', '_', '\\'} && c in v ensures c in f {
        var i :| 0 <= i < |v| && v[i] == c;
        assert f[i] == c;
      }
    }
  }

  lemma ContainsNoLonger(s: string, v: string)
    requires |s| <= |v| && Contains(s, v)
    ensures s == v
  {
    var i :| 0 <= i <= |s| - |v| && s[i..][..|v|] == v;
    assert s[0..] == s;
  }

  /** Main result: the `contains` filter means "the value occurs in the text, whatever the case" for every
      text exactly when the value holds none of the characters '%', '_' and '\'. */
  lemma ContainsMeansSubstringIff(value: string)
    ensures (forall s :: ILike(s, ContainsPattern(value)) <==> Contains(Fold(s), Fold(value))) <==> Plain(value)
  {
    var v := Fold(value);
    assert Fold(ContainsPattern(value)) == ContainsPattern(v);
    FoldPlain(value);
    if Plain(value) {
      forall s ensures ILike(s, ContainsPattern(value)) <==> Contains(Fold(s), v) {
        PlainContains(Fold(s), v);
      }
    } else {
      var s := Instance(v + "%");
      InstanceDiffers(v);
      InstanceMatches(v + "%");
      FoldedIsFixed(value);
      InstanceFolded(v + "%");
      FoldedIsFixed(s);
      assert ContainsPattern(v)[1..] == v + "%";
      assert Like(s, ContainsPattern(v));
      assert ILike(s, ContainsPattern(value));
      if Contains(Fold(s), v) { ContainsNoLonger(s, v); }
    }
  }
}
