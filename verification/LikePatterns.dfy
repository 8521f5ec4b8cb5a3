/** SQL LIKE patterns, and when `'%' + needle + '%'` means "contains the needle". */
module LikePatterns {
  import opened Wrappers

  /** `t LIKE p` with backslash as the escape character. */
  predicate Like(p: string, t: string)
    decreases |p|, |t|
  {
    if p == "" then t == ""
    else if p[0] == '%' then Like(p[1..], t) || (t != "" && Like(p, t[1..]))
    else if t == "" then false
    else if p[0] == '_' then Like(p[1..], t[1..])
    else if p[0] == '\\' then |p| > 1 && p[1] == t[0] && Like(p[2..], t[1..])
    else p[0] == t[0] && Like(p[1..], t[1..])
  }

  predicate Special(c: char) {
    c == '%' || c == '_' || c == '\\'
  }

  predicate Plain(n: string) {
    forall c <- n :: !Special(c)
  }

  predicate OccursAt(t: string, n: string, i: int) {
    0 <= i <= |t| - |n| && t[i..i + |n|] == n
  }

  predicate Contains(t: string, n: string) {
    exists i | 0 <= i <= |t| :: OccursAt(t, n, i)
  }

  // ---- Plain needles ----

  lemma {:induction false} AnythingMatches(t: string)
    ensures Like("%", t)
  {
    assert "%"[1..] == "";
    if t != "" {
      AnythingMatches(t[1..]);
    }
  }

  lemma {:induction false} PlainPrefix(n: string, t: string)
    requires Plain(n)
    ensures Like(n + "%", t) <==> |n| <= |t| && t[..|n|] == n
  {
    if n == "" {
      assert n + "%" == "%";
      AnythingMatches(t);
    } else {
      assert n[0] in n;
      assert (n + "%")[1..] == n[1..] + "%";
      if t != "" && t[0] == n[0] {
        PlainPrefix(n[1..], t[1..]);
        if |n| <= |t| {
          assert t[..|n|] == [t[0]] + t[1..][..|n| - 1] && n == [n[0]] + n[1..];
        }
      }
    }
  }

  lemma {:induction false} PercentSkips(q: string, t: string)
    ensures Like("%" + q, t) <==> exists i | 0 <= i <= |t| :: Like(q, t[i..])
    decreases |t|
  {
    var p := "%" + q;
    assert p[1..] == q && t[0..] == t;
    if t != "" {
      PercentSkips(q, t[1..]);
      if i :| 0 <= i <= |t[1..]| && Like(q, t[1..][i..]) {
        assert t[1..][i..] == t[i + 1..];
      }
      if i :| 0 <= i <= |t| && Like(q, t[i..]) {
        if i > 0 {
          assert t[i..] == t[1..][i - 1..];
        }
      }
    }
  }

  lemma PlainMeansContains(n: string, t: string)
    requires Plain(n)
    ensures Like("%" + n + "%", t) <==> Contains(t, n)
  {
    PercentSkips(n + "%", t);
    assert "%" + n + "%" == "%" + (n + "%");
    forall i | 0 <= i <= |t| ensures Like(n + "%", t[i..]) <==> OccursAt(t, n, i) {
      PlainPrefix(n, t[i..]);
      if |n| <= |t[i..]| {
        assert t[i..][..|n|] == t[i..i + |n|];
      }
    }
  }

  // ---- Other needles ----

  /** A text that the pattern of a needle matches, one literal reading of its wildcards and escapes. */
  function Reading(n: string): (t: string)
    ensures |t| <= |n|
  {
    if n == "" then ""
    else if n[0] == '%' then Reading(n[1..])
    else if n[0] == '_' then "a" + Reading(n[1..])
    else if n[0] == '\\' then (if |n| == 1 then "%" else [n[1]] + Reading(n[2..]))
    else [n[0]] + Reading(n[1..])
  }

  lemma {:induction false} ReadingMatches(n: string)
    ensures Like(n + "%", Reading(n))
  {
    var p, t := n + "%", Reading(n);
    if n == "" {
      assert p == "%";
      AnythingMatches(t);
    } else if n[0] == '\\' && |n| == 1 {
      assert p == "\\%" && p[2..] == "" && t[1..] == "";
    } else if n[0] == '\\' {
      ReadingMatches(n[2..]);
      assert p[2..] == n[2..] + "%" && t[1..] == Reading(n[2..]);
    } else {
      ReadingMatches(n[1..]);
      assert p[1..] == n[1..] + "%";
      assert n[0] != '%' ==> t[1..] == Reading(n[1..]);
    }
  }

  lemma {:induction false} ReadingIsNeedleOnlyIfPlain(n: string)
    requires Reading(n) == n
    ensures Plain(n)
  {
    if n != "" && !Special(n[0]) {
      assert Reading(n)[1..] == Reading(n[1..]);
      ReadingIsNeedleOnlyIfPlain(n[1..]);
      assert n == [n[0]] + n[1..];
    }
  }

  /** A needle with a wildcard or an escape in it matches some text that does not contain it. */
  lemma SpecialMatchesOtherText(n: string)
    requires !Plain(n)
    ensures Like("%" + n + "%", Reading(n)) && !Contains(Reading(n), n)
  {
    var t := Reading(n);
    ReadingMatches(n);
    PercentSkips(n + "%", t);
    assert "%" + n + "%" == "%" + (n + "%") && t[0..] == t;
    if i :| 0 <= i <= |t| && OccursAt(t, n, i) {
      assert t[i..i + |n|] == t;
      ReadingIsNeedleOnlyIfPlain(n);
    }
  }

  // ---- Ignoring case ----

  /** A case fold: idempotent, with the special characters and 'a' as their own folds and nobody else's. */
  ghost predicate CaseFold(fold: char -> char) {
    && (forall c :: fold(fold(c)) == fold(c))
    && (forall c :: Special(fold(c)) <==> Special(c))
    && (forall c | Special(c) :: fold(c) == c)
    && fold('a') == 'a'
  }

  predicate ILike(fold: char -> char, p: string, t: string) {
    Like(Map(fold, p), Map(fold, t))
  }

  function Around(n: string): string {
    "%" + n + "%"
  }

  /** `t` contains `n`, ignoring case. */
  predicate ContainsFold(fold: char -> char, t: string, n: string) {
    Contains(Map(fold, t), Map(fold, n))
  }

  lemma FoldAround(fold: char -> char, n: string)
    requires CaseFold(fold)
    ensures Map(fold, Around(n)) == Around(Map(fold, n))
  {}

  lemma FoldPlain(fold: char -> char, n: string)
    requires CaseFold(fold)
    ensures Plain(Map(fold, n)) <==> Plain(n)
  {
    var f := Map(fold, n);
    if Plain(f) {
      forall c <- n ensures !Special(c) {
        var i :| 0 <= i < |n| && n[i] == c;
        assert f[i] in f;
      }
    }
    if Plain(n) {
      forall c <- f ensures !Special(c) {
        var i :| 0 <= i < |f| && f[i] == c;
        assert n[i] in n;
      }
    }
  }

  predicate Folded(fold: char -> char, s: string) {
    forall c <- s :: fold(c) == c
  }

  lemma FoldedIsFixed(fold: char -> char, s: string)
    ensures Folded(fold, s) <==> Map(fold, s) == s
  {
    var f := Map(fold, s);
    if f == s {
      forall c <- s ensures fold(c) == c {
        var i :| 0 <= i < |s| && s[i] == c;
        assert f[i] == c;
      }
    }
  }

  lemma {:induction false} ReadingIsFolded(fold: char -> char, n: string)
    requires CaseFold(fold) && Folded(fold, n)
    ensures Folded(fold, Reading(n))
  {
    hide CaseFold;
    if n != "" {
      assert n[0] in n;
      FoldFixesReadings(fold);
      if n[0] == '\\' && |n| > 1 {
        assert n[1] in n;
        ReadingIsFolded(fold, n[2..]);
      } else if n[0] != '\\' {
        ReadingIsFolded(fold, n[1..]);
      }
    }
  }

  lemma FoldFixesReadings(fold: char -> char)
    requires CaseFold(fold)
    ensures fold('%') == '%' && fold('a') == 'a'
  {
    assert Special('%');
  }

  /** The filter `ILIKE '%needle%'` means "contains the needle, ignoring case" exactly for the plain needles. */
  lemma ContainsExactlyWhenPlain(fold: char -> char, n: string)
    requires CaseFold(fold)
    ensures Plain(n) <==> forall t :: ILike(fold, Around(n), t) <==> ContainsFold(fold, t, n)
  {
    hide Like, Contains, Map;
    var f := Map(fold, n);
    FoldAround(fold, n);
    FoldPlain(fold, n);
    if Plain(n) {
      forall t ensures ILike(fold, Around(n), t) <==> ContainsFold(fold, t, n) {
        PlainMeansContains(f, Map(fold, t));
      }
    } else {
      SpecialMatchesOtherText(f);
      FoldTwice(fold, n);
      FoldedIsFixed(fold, f);
      ReadingIsFolded(fold, f);
      FoldedIsFixed(fold, Reading(f));
      assert ILike(fold, Around(n), Reading(f)) && !ContainsFold(fold, Reading(f), n);
    }
  }

  lemma FoldTwice(fold: char -> char, n: string)
    requires CaseFold(fold)
    ensures Map(fold, Map(fold, n)) == Map(fold, n)
  {}
}
