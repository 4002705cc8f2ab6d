/** The two slugify implementations: the byte loop of cmd/admin/main.go and the regular expression of
    internal/handler/helpers.go. Strings are Go byte strings, valid UTF-8 or not. */
module Slug {

  newtype byte = x: int | 0 <= x < 256

  type Bytes = seq<byte>

  const DASH: byte := 45

  predicate IsLower(b: byte) {
    97 <= b <= 122
  }

  predicate IsAlnum(b: byte) {
    IsLower(b) || 48 <= b <= 57
  }

  // ---- strings.TrimSpace and strings.ToLower ----

  predicate IsSpace(b: byte) {
    b == 32 || 9 <= b <= 13
  }

  predicate IsAscii(s: Bytes) {
    forall i :: 0 <= i < |s| ==> s[i] < 128
  }

  function TrimLeft(s: Bytes, drop: byte -> bool): Bytes {
    if |s| > 0 && drop(s[0]) then TrimLeft(s[1..], drop) else s
  }

  function TrimRight(s: Bytes, drop: byte -> bool): Bytes {
    if |s| > 0 && drop(s[|s| - 1]) then TrimRight(s[..|s| - 1], drop) else s
  }

  function Trim(s: Bytes, drop: byte -> bool): Bytes {
    TrimRight(TrimLeft(s, drop), drop)
  }

  function Lower(s: Bytes): (r: Bytes)
    ensures |r| == |s|
  {
    seq(|s|, i requires 0 <= i < |s| => if 65 <= s[i] <= 90 then s[i] + 32 else s[i])
  }

  /** ToLower(TrimSpace(s)): written out for ASCII text; beyond ASCII, whatever the Unicode tables say. */
  function Prepare(s: Bytes, unicode: Bytes -> Bytes): Bytes {
    if IsAscii(s) then Lower(Trim(s, b => IsSpace(b))) else unicode(s)
  }

  // ---- The regular expression [^a-z0-9]+ over runes ----

  predicate IsCont(b: byte) {
    128 <= b <= 191
  }

  /** The second byte a three- or four-byte lead allows. */
  predicate SecondOk(lead: byte, b: byte) {
    if lead == 0xE0 then 0xA0 <= b <= 0xBF
    else if lead == 0xED then 0x80 <= b <= 0x9F
    else if lead == 0xF0 then 0x90 <= b <= 0xBF
    else if lead == 0xF4 then 0x80 <= b <= 0x8F
    else IsCont(b)
  }

  /** Bytes in the first rune; an invalid sequence counts as one byte. */
  function RuneWidth(s: Bytes): (w: nat)
    requires |s| > 0
    ensures 1 <= w <= |s|
    ensures s[0] < 128 ==> w == 1
    ensures forall i :: 1 <= i < w ==> s[i] >= 128
  {
    if s[0] < 0xC2 || s[0] > 0xF4 || |s| < 2 || !SecondOk(s[0], s[1]) then 1
    else if s[0] < 0xE0 then 2
    else if |s| < 3 || !IsCont(s[2]) then 1
    else if s[0] < 0xF0 then 3
    else if |s| < 4 || !IsCont(s[3]) then 1
    else 4
  }

  /** Each maximal run of other runes becomes one dash. */
  function ReplaceRuns(s: Bytes, inRun: bool): Bytes {
    if |s| == 0 then []
    else if IsAlnum(s[0]) then [s[0]] + ReplaceRuns(s[1..], false)
    else (if inRun then [] else [DASH]) + ReplaceRuns(s[RuneWidth(s)..], true)
  }

  function TrimDashes(s: Bytes): Bytes {
    Trim(s, b => b == DASH)
  }

  function Slugify(s: Bytes, unicode: Bytes -> Bytes): Bytes {
    TrimDashes(ReplaceRuns(Prepare(s, unicode), false))
  }

  // ---- Runes and bytes give the same runs ----

  function ReplaceBytes(s: Bytes, inRun: bool): Bytes {
    if |s| == 0 then []
    else if IsAlnum(s[0]) then [s[0]] + ReplaceBytes(s[1..], false)
    else (if inRun then [] else [DASH]) + ReplaceBytes(s[1..], true)
  }

  lemma {:induction false} SkipOthers(s: Bytes, n: nat)
    requires n <= |s| && forall i :: 0 <= i < n ==> !IsAlnum(s[i])
    ensures ReplaceBytes(s, true) == ReplaceBytes(s[n..], true)
  {
    if n > 0 {
      SkipOthers(s[1..], n - 1);
      assert s[1..][n - 1..] == s[n..];
    }
  }

  lemma {:induction false} RunesAreBytes(s: Bytes, inRun: bool)
    ensures ReplaceRuns(s, inRun) == ReplaceBytes(s, inRun)
    decreases |s|
  {
    if |s| > 0 {
      if IsAlnum(s[0]) {
        RunesAreBytes(s[1..], false);
      } else {
        var w := RuneWidth(s);
        RunesAreBytes(s[w..], true);
        SkipOthers(s[1..], w - 1);
        assert s[1..][w - 1..] == s[w..];
      }
    }
  }

  // ---- The byte loop ----

  predicate EndsInRun(s: Bytes, inRun: bool) {
    if |s| == 0 then inRun else !IsAlnum(s[|s| - 1])
  }

  lemma {:induction false} ReplaceSnoc(s: Bytes, c: byte, inRun: bool)
    ensures ReplaceBytes(s + [c], inRun) ==
            ReplaceBytes(s, inRun) + (if IsAlnum(c) then [c] else if EndsInRun(s, inRun) then [] else [DASH])
  {
    if |s| > 0 {
      assert (s + [c])[1..] == s[1..] + [c];
      ReplaceSnoc(s[1..], c, !IsAlnum(s[0]));
    } else {
      assert (s + [c])[1..] == [];
    }
  }

  function DropDashes(s: Bytes): Bytes {
    TrimLeft(s, b => b == DASH)
  }

  lemma {:induction false} DropSnoc(s: Bytes, c: byte)
    ensures DropDashes(s + [c]) == if DropDashes(s) == [] then (if c == DASH then [] else [c]) else DropDashes(s) + [c]
  {
    if |s| > 0 {
      if s[0] == DASH {
        assert (s + [c])[1..] == s[1..] + [c];
        DropSnoc(s[1..], c);
      }
    } else {
      assert s + [c] == [c] && [c][1..] == [];
    }
  }

  lemma {:induction false} LastOfReplaced(s: Bytes)
    ensures |s| > 0 ==>
      && |ReplaceBytes(s, false)| > 0
      && (ReplaceBytes(s, false)[|ReplaceBytes(s, false)| - 1] == DASH <==> !IsAlnum(s[|s| - 1]))
    decreases |s|
  {
    if |s| > 0 {
      var n := |s| - 1;
      assert s == s[..n] + [s[n]];
      ReplaceSnoc(s[..n], s[n], false);
      LastOfReplaced(s[..n]);
    }
  }

  lemma {:induction false} LastOfDropped(s: Bytes)
    ensures DropDashes(s) != [] ==> |s| > 0 && DropDashes(s)[|DropDashes(s)| - 1] == s[|s| - 1]
    ensures DropDashes(s) == [] ==> forall i :: 0 <= i < |s| ==> s[i] == DASH
  {
    if |s| > 0 && s[0] == DASH {
      LastOfDropped(s[1..]);
    }
  }

  /** The loop of cmd/admin computes what the regular expression does, for every input. */
  method SlugifyLoop(s: Bytes, unicode: Bytes -> Bytes) returns (r: Bytes)
    ensures r == Slugify(s, unicode)
  {
    var text := Prepare(s, unicode);
    var result: Bytes := [];
    var lastDash := false;
    for i := 0 to |text|
      invariant result == DropDashes(ReplaceBytes(text[..i], false))
      invariant lastDash <==> |result| > 0 && result[|result| - 1] == DASH
    {
      var b := text[i];
      LoopStep(text, i);
      if IsAlnum(b) {
        result := result + [b];
        lastDash := false;
      } else if !lastDash && |result| > 0 {
        result := result + [DASH];
        lastDash := true;
      }
    }
    assert text[..|text|] == text;
    RunesAreBytes(text, false);
    r := TrimDashes(result);
    TrimIgnoresDropped(ReplaceBytes(text, false));
  }

  /** One more byte: an alphanumeric is kept, another byte adds a dash after an alphanumeric only. */
  lemma {:induction false} LoopStep(text: Bytes, i: nat)
    requires i < |text|
    ensures var before, after := DropDashes(ReplaceBytes(text[..i], false)), DropDashes(ReplaceBytes(text[..i + 1], false));
            after == if IsAlnum(text[i]) then before + [text[i]]
                     else if |before| > 0 && before[|before| - 1] != DASH then before + [DASH]
                     else before
  {
    var prefix, c := text[..i], text[i];
    assert text[..i + 1] == prefix + [c];
    var replaced := ReplaceBytes(prefix, false);
    ReplaceSnoc(prefix, c, false);
    LastOfReplaced(prefix);
    LastOfDropped(replaced);
    if IsAlnum(c) {
      DropSnoc(replaced, c);
    } else if !EndsInRun(prefix, false) {
      DropSnoc(replaced, DASH);
    } else {
      assert replaced + [] == replaced;
    }
  }

  lemma {:induction false} TrimIgnoresDropped(s: Bytes)
    ensures TrimDashes(DropDashes(s)) == TrimDashes(s)
  {
    DropTwice(s);
  }

  lemma {:induction false} DropTwice(s: Bytes)
    ensures DropDashes(DropDashes(s)) == DropDashes(s)
  {
    if |s| > 0 && s[0] == DASH {
      DropTwice(s[1..]);
    }
  }

  // ---- What a slug looks like ----

  predicate SlugByte(b: byte) {
    IsAlnum(b) || b == DASH
  }

  /** Dashes only inside, never two in a row. */
  predicate Spaced(s: Bytes) {
    && (forall i :: 0 <= i < |s| ==> SlugByte(s[i]))
    && (forall i :: 0 <= i < |s| - 1 ==> s[i] != DASH || s[i + 1] != DASH)
  }

  predicate IsSlug(s: Bytes) {
    Spaced(s) && (s == [] || (IsAlnum(s[0]) && IsAlnum(s[|s| - 1])))
  }

  lemma {:induction false} ReplacedIsSpaced(s: Bytes, inRun: bool)
    ensures Spaced(ReplaceBytes(s, inRun))
    ensures inRun ==> ReplaceBytes(s, inRun) == [] || ReplaceBytes(s, inRun)[0] != DASH
  {
    if |s| > 0 {
      ReplacedIsSpaced(s[1..], !IsAlnum(s[0]));
    }
  }

  lemma {:induction false} TrimLeftSpaced(s: Bytes)
    requires Spaced(s)
    ensures Spaced(DropDashes(s)) && (DropDashes(s) == [] || IsAlnum(DropDashes(s)[0]))
  {
    if |s| > 0 && s[0] == DASH {
      assert forall i :: 0 <= i < |s[1..]| ==> s[1..][i] == s[i + 1];
      TrimLeftSpaced(s[1..]);
    }
  }

  lemma {:induction false} TrimRightSpaced(s: Bytes)
    requires Spaced(s) && (s == [] || IsAlnum(s[0]))
    ensures IsSlug(TrimRight(s, b => b == DASH))
  {
  }

  /** Every result is empty, or starts and ends alphanumeric with no two adjacent dashes. */
  lemma {:induction false} SlugifyGivesSlug(s: Bytes, unicode: Bytes -> Bytes)
    ensures IsSlug(Slugify(s, unicode))
  {
    var text := Prepare(s, unicode);
    RunesAreBytes(text, false);
    ReplacedIsSpaced(text, false);
    TrimLeftSpaced(ReplaceBytes(text, false));
    TrimRightSpaced(DropDashes(ReplaceBytes(text, false)));
  }

  lemma {:induction false} SpacedUnchanged(s: Bytes, inRun: bool)
    requires Spaced(s) && (inRun ==> s == [] || s[0] != DASH)
    ensures ReplaceBytes(s, inRun) == s
  {
    if |s| > 0 {
      assert forall i :: 0 <= i < |s[1..]| ==> s[1..][i] == s[i + 1];
      assert s[0] == DASH && |s| > 1 ==> s[1] != DASH;
      SpacedUnchanged(s[1..], !IsAlnum(s[0]));
      assert s == [s[0]] + s[1..];
    }
  }

  lemma {:induction false} SlugIsPrepared(s: Bytes, unicode: Bytes -> Bytes)
    requires IsSlug(s)
    ensures Prepare(s, unicode) == s
  {
  }

  lemma {:induction false} NothingToTrim(s: Bytes)
    requires IsSlug(s)
    ensures TrimDashes(s) == s
  {
  }

  lemma {:induction false} SlugUnchanged(s: Bytes, unicode: Bytes -> Bytes)
    requires IsSlug(s)
    ensures Slugify(s, unicode) == s
  {
    SlugIsPrepared(s, unicode);
    RunesAreBytes(s, false);
    SpacedUnchanged(s, false);
    NothingToTrim(s);
  }

  /** The slugs are exactly the fixed points, whatever the Unicode tables do to other texts. */
  lemma {:induction false} FixedPointsAreSlugs(s: Bytes, unicode: Bytes -> Bytes)
    ensures Slugify(s, unicode) == s <==> IsSlug(s)
  {
    SlugifyGivesSlug(s, unicode);
    if IsSlug(s) {
      SlugUnchanged(s, unicode);
    }
  }

  /** slugify is idempotent. */
  lemma {:induction false} SlugifyIdempotent(s: Bytes, unicode: Bytes -> Bytes)
    ensures Slugify(Slugify(s, unicode), unicode) == Slugify(s, unicode)
  {
    SlugifyGivesSlug(s, unicode);
    FixedPointsAreSlugs(Slugify(s, unicode), unicode);
  }

  // ---- The words survive ----

  /** What a slug keeps of a byte: letters in lower case, digits, nothing else. */
  function Kept(b: byte): Bytes {
    if 'A' as int <= b as int <= 'Z' as int then [b + 32]
    else if 'a' as int <= b as int <= 'z' as int || '0' as int <= b as int <= '9' as int then [b]
    else []
  }

  function Finished(word: Bytes): seq<Bytes> {
    if word == [] then [] else [word]
  }

  /** The words of a text in lower case, after a word begun before it; anything that is not kept parts words. */
  function Words(s: Bytes, begun: Bytes): seq<Bytes> {
    if |s| == 0 then Finished(begun)
    else if Kept(s[0]) != [] then Words(s[1..], begun + Kept(s[0]))
    else Finished(begun) + Words(s[1..], [])
  }

  lemma {:induction false} WordsOfLower(s: Bytes, begun: Bytes)
    ensures Words(Lower(s), begun) == Words(s, begun)
  {
    if |s| > 0 {
      assert Lower(s)[1..] == Lower(s[1..]);
      assert Kept(Lower(s)[0]) == Kept(s[0]);
      WordsOfLower(s[1..], if Kept(s[0]) != [] then begun + Kept(s[0]) else []);
    }
  }

  lemma {:induction false} WordsOfTrimLeft(s: Bytes, drop: byte -> bool)
    requires forall b :: drop(b) ==> Kept(b) == []
    ensures Words(TrimLeft(s, drop), []) == Words(s, [])
  {
    if |s| > 0 && drop(s[0]) {
      WordsOfTrimLeft(s[1..], drop);
    }
  }

  lemma {:induction false} WordsSnoc(s: Bytes, b: byte, begun: Bytes)
    requires Kept(b) == []
    ensures Words(s + [b], begun) == Words(s, begun)
  {
    if |s| > 0 {
      assert (s + [b])[1..] == s[1..] + [b];
      WordsSnoc(s[1..], b, if Kept(s[0]) != [] then begun + Kept(s[0]) else []);
    } else {
      assert s + [b] == [b] && [b][1..] == [];
      assert Finished(begun) + Words([], []) == Finished(begun);
    }
  }

  lemma {:induction false} WordsOfTrimRight(s: Bytes, drop: byte -> bool)
    requires forall b :: drop(b) ==> Kept(b) == []
    ensures Words(TrimRight(s, drop), []) == Words(s, [])
  {
    var n := |s| - 1;
    if |s| > 0 && drop(s[n]) {
      WordsOfTrimRight(s[..n], drop);
      WordsSnoc(s[..n], s[n], []);
      assert s == s[..n] + [s[n]];
    }
  }

  predicate NoCapitals(s: Bytes) {
    forall i :: 0 <= i < |s| ==> !(65 <= s[i] <= 90)
  }

  /** A dash parts words as well as whatever stood in its place. */
  lemma {:induction false} WordsOfReplaced(s: Bytes, inRun: bool, begun: Bytes)
    requires NoCapitals(s) && (inRun ==> begun == [])
    ensures Words(ReplaceBytes(s, inRun), begun) == Words(s, begun)
  {
    if |s| > 0 {
      var rest := ReplaceBytes(s[1..], !IsAlnum(s[0]));
      if IsAlnum(s[0]) {
        WordsOfReplaced(s[1..], false, begun + [s[0]]);
        assert Kept(s[0]) == [s[0]] && ([s[0]] + rest)[1..] == rest;
      } else {
        WordsOfReplaced(s[1..], true, []);
        assert Kept(s[0]) == [] && Kept(DASH) == [];
        assert [] + rest == rest && ([DASH] + rest)[1..] == rest;
        assert Finished([]) + Words(s[1..], []) == Words(s[1..], []);
      }
    }
  }

  /** The slug of an ASCII text has exactly its words, in order and in lower case, and (by SlugifyGivesSlug)
      nothing else but single dashes between them. */
  lemma {:induction false} SlugKeepsWords(s: Bytes, unicode: Bytes -> Bytes)
    requires IsAscii(s)
    ensures Words(Slugify(s, unicode), []) == Words(s, [])
  {
    var trimmed := Trim(s, b => IsSpace(b));
    var text := Lower(trimmed);
    WordsOfTrimLeft(s, b => IsSpace(b));
    WordsOfTrimRight(TrimLeft(s, b => IsSpace(b)), b => IsSpace(b));
    WordsOfLower(trimmed, []);
    RunesAreBytes(text, false);
    WordsOfReplaced(text, false, []);
    WordsOfTrimLeft(ReplaceBytes(text, false), b => b == DASH);
    WordsOfTrimRight(DropDashes(ReplaceBytes(text, false)), b => b == DASH);
  }
}
