/** LIKE and ILIKE pattern matching with the default backslash escape (section 9.7.1 of the
    PostgreSQL manual) and the escaping of user text (likeEscaper in internal/repository/route.go). */
module LikePattern {

  predicate IsMeta(c: char) {
    c == '%' || c == '_' || c == '\\'
  }

  /** Whether the pattern matches the whole text. A trailing lone escape is an error in PostgreSQL;
      WellFormed below shows that it never arises from escaped text. */
  predicate Like(s: string, p: string)
    decreases |p|, |s|
  {
    if p == "" then s == ""
    else if p[0] == '%' then Like(s, p[1..]) || (s != "" && Like(s[1..], p))
    else if p[0] == '_' then s != "" && Like(s[1..], p[1..])
    else if p[0] == '\\' then |p| >= 2 && s != "" && s[0] == p[1] && Like(s[1..], p[2..])
    else s != "" && s[0] == p[0] && Like(s[1..], p[1..])
  }

  /** No escape without a character to escape. */
  predicate WellFormed(p: string) {
    p == "" || (if p[0] == '\\' then |p| >= 2 && WellFormed(p[2..]) else WellFormed(p[1..]))
  }

  function Escape(q: string): string {
    if q == "" then ""
    else (if IsMeta(q[0]) then ['\\', q[0]] else [q[0]]) + Escape(q[1..])
  }

  /** The pattern the query builds: '%' || $n || '%'. */
  function SubstringPattern(arg: string): string {
    "%" + arg + "%"
  }

  ghost predicate OccursAt(s: string, q: string, i: int) {
    0 <= i <= |s| - |q| && s[i..i + |q|] == q
  }

  ghost predicate Contains(s: string, q: string) {
    exists i :: OccursAt(s, q, i)
  }

  lemma {:induction false} PercentMatchesAll(s: string)
    ensures Like(s, "%")
  {
    if s != "" {
      PercentMatchesAll(s[1..]);
    }
  }

  /** Escaped text followed by '%' matches exactly the texts that start with it. */
  lemma {:induction false} EscapedPrefix(s: string, q: string)
    ensures Like(s, Escape(q) + "%") <==> q <= s
  {
    if q == "" {
      assert Escape(q) + "%" == "%";
      PercentMatchesAll(s);
    } else {
      var p := Escape(q) + "%";
      var rest := Escape(q[1..]) + "%";
      if IsMeta(q[0]) {
        assert p[2..] == rest;
      } else {
        assert p[1..] == rest;
      }
      if s != "" {
        EscapedPrefix(s[1..], q[1..]);
        assert q <= s <==> s[0] == q[0] && q[1..] <= s[1..];
      }
    }
  }

  lemma {:induction false} ContainsUnfold(s: string, q: string)
    ensures Contains(s, q) <==> q <= s || (s != "" && Contains(s[1..], q))
  {
    forall i | OccursAt(s, q, i) ensures q <= s || (s != "" && Contains(s[1..], q)) {
      if i > 0 {
        assert s[1..][i - 1..i - 1 + |q|] == s[i..i + |q|];
        assert OccursAt(s[1..], q, i - 1);
      }
    }
    if q <= s {
      assert OccursAt(s, q, 0);
    }
    if s != "" {
      forall i | OccursAt(s[1..], q, i) ensures Contains(s, q) {
        assert s[1..][i..i + |q|] == s[i + 1..i + 1 + |q|];
        assert OccursAt(s, q, i + 1);
      }
    }
  }

  /** '%' + escape(q) + '%' matches s exactly when q occurs in s. */
  lemma {:induction false} EscapedMatchesSubstring(s: string, q: string)
    ensures Like(s, SubstringPattern(Escape(q))) <==> Contains(s, q)
  {
    var p := SubstringPattern(Escape(q));
    assert p[1..] == Escape(q) + "%";
    EscapedPrefix(s, q);
    ContainsUnfold(s, q);
    if s != "" {
      EscapedMatchesSubstring(s[1..], q);
    }
  }

  lemma {:induction false} EscapedWellFormed(q: string, tail: string)
    requires WellFormed(tail)
    ensures WellFormed(Escape(q) + tail)
  {
    if q == "" {
      assert Escape(q) + tail == tail;
    } else {
      EscapedWellFormed(q[1..], tail);
      var rest := Escape(q[1..]) + tail;
      if IsMeta(q[0]) {
        assert Escape(q) + tail == ['\\', q[0]] + rest;
        assert (['\\', q[0]] + rest)[2..] == rest;
      } else {
        assert Escape(q) + tail == [q[0]] + rest;
        assert ([q[0]] + rest)[1..] == rest;
      }
    }
  }

  /** The compiled pattern never raises PostgreSQL's trailing-escape error. */
  lemma {:induction false} SubstringPatternWellFormed(q: string)
    ensures WellFormed(SubstringPattern(Escape(q)))
  {
    assert WellFormed("%"[1..]);
    EscapedWellFormed(q, "%");
    assert SubstringPattern(Escape(q))[1..] == Escape(q) + "%";
  }

  // ---- Without the escaping ----

  predicate HasMeta(q: string) {
    exists i :: 0 <= i < |q| && IsMeta(q[i])
  }

  lemma {:induction false} EscapeFixesPlainText(q: string)
    requires !HasMeta(q)
    ensures Escape(q) == q
  {
    if q != "" {
      assert !IsMeta(q[0]);
      assert forall i :: 0 <= i < |q[1..]| ==> q[1..][i] == q[i + 1];
      EscapeFixesPlainText(q[1..]);
    }
  }

  /** The texts the raw pattern '%' + q + '%' gets wrong. */
  ghost predicate RawIsExact(q: string) {
    forall s :: Like(s, SubstringPattern(q)) <==> Contains(s, q)
  }

  /** A text in which every metacharacter position of the pattern holds something else. */
  function Decoy(q: string): string {
    if q == "" then ""
    else if q[0] == '%' then Decoy(q[1..])
    else if q[0] == '\\' then if |q| >= 2 then [q[1]] + Decoy(q[2..]) else "%"
    else (if q[0] == '_' then "x" else [q[0]]) + Decoy(q[1..])
  }

  lemma {:induction false} DecoyMatches(q: string)
    ensures Like(Decoy(q), q + "%")
    decreases |q|
  {
    if q == "" {
      assert q + "%" == "%";
      PercentMatchesAll("");
    } else {
      var p := q + "%";
      if q[0] == '\\' {
        if |q| >= 2 {
          assert p[2..] == q[2..] + "%";
          DecoyMatches(q[2..]);
          assert ([q[1]] + Decoy(q[2..]))[1..] == Decoy(q[2..]);
        } else {
          assert p[2..] == "" && "%"[1..] == "";
        }
      } else {
        assert p[1..] == q[1..] + "%";
        DecoyMatches(q[1..]);
        if q[0] != '%' {
          assert Decoy(q)[1..] == Decoy(q[1..]);
        }
      }
    }
  }

  lemma {:induction false} DecoyShorter(q: string)
    ensures |Decoy(q)| <= |q|
    ensures |Decoy(q)| == |q| && q != Decoy(q) ==> HasMeta(q)
    ensures HasMeta(q) ==> Decoy(q) != q
    decreases |q|
  {
    if q != "" {
      if q[0] == '\\' {
        if |q| >= 2 {
          DecoyShorter(q[2..]);
        }
      } else {
        DecoyShorter(q[1..]);
        if HasMeta(q) && !IsMeta(q[0]) {
          var i :| 0 <= i < |q| && IsMeta(q[i]);
          assert q[1..][i - 1] == q[i];
          assert HasMeta(q[1..]);
          assert Decoy(q)[1..] == Decoy(q[1..]);
        }
      }
      if !HasMeta(q) {
        assert forall i :: 0 <= i < |q[1..]| ==> q[1..][i] == q[i + 1];
      }
    }
  }

  lemma {:induction false} ShorterContainsOnlyItself(s: string, q: string)
    requires |s| <= |q|
    ensures Contains(s, q) ==> s == q
  {
  }

  /** Escaping is needed for exactly the queries that contain a metacharacter. */
  lemma {:induction false} RawPatternExactIff(q: string)
    ensures RawIsExact(q) <==> !HasMeta(q)
  {
    if HasMeta(q) {
      var s := Decoy(q);
      DecoyMatches(q);
      DecoyShorter(q);
      var p := SubstringPattern(q);
      assert p[1..] == q + "%";
      assert Like(s, p);
      ShorterContainsOnlyItself(s, q);
    } else {
      EscapeFixesPlainText(q);
      forall s ensures Like(s, SubstringPattern(q)) <==> Contains(s, q) {
        EscapedMatchesSubstring(s, q);
      }
    }
  }

  // ---- ILIKE ----

  /** A per-character case fold that neither moves nor creates metacharacters. */
  ghost predicate KeepsMeta(fold: char -> char) {
    forall c {:trigger fold(c)} :: (IsMeta(c) ==> fold(c) == c) && (!IsMeta(c) ==> !IsMeta(fold(c)))
  }

  function Fold(fold: char -> char, s: string): (r: string)
    ensures |r| == |s| && forall i :: 0 <= i < |s| ==> r[i] == fold(s[i])
  {
    if s == "" then "" else [fold(s[0])] + Fold(fold, s[1..])
  }

  predicate ILike(fold: char -> char, s: string, p: string) {
    Like(Fold(fold, s), Fold(fold, p))
  }

  lemma {:induction false} FoldCommutesWithEscape(fold: char -> char, q: string)
    requires KeepsMeta(fold)
    ensures Fold(fold, Escape(q)) == Escape(Fold(fold, q))
  {
    if q != "" {
      FoldCommutesWithEscape(fold, q[1..]);
      var f := Fold(fold, Escape(q));
      var rest := Escape(q[1..]);
      var k := if IsMeta(q[0]) then 2 else 1;
      assert Escape(q)[k..] == rest;
      assert IsMeta('\\');
      assert f[..k] == Escape([fold(q[0])]);
      assert f[k..] == Fold(fold, rest);
      assert f == f[..k] + f[k..];
      assert Fold(fold, q)[1..] == Fold(fold, q[1..]);
    }
  }

  lemma {:induction false} FoldOfPattern(fold: char -> char, arg: string)
    requires fold('%') == '%'
    ensures Fold(fold, SubstringPattern(arg)) == SubstringPattern(Fold(fold, arg))
  {
  }

  /** Case-insensitive search: the compiled ILIKE finds q as a substring after folding both sides. */
  lemma {:induction false} EscapedIMatchesSubstring(fold: char -> char, s: string, q: string)
    requires KeepsMeta(fold)
    ensures ILike(fold, s, SubstringPattern(Escape(q))) <==> Contains(Fold(fold, s), Fold(fold, q))
  {
    assert IsMeta('%');
    FoldCommutesWithEscape(fold, q);
    FoldOfPattern(fold, Escape(q));
    EscapedMatchesSubstring(Fold(fold, s), Fold(fold, q));
  }
}
