/** Exactly which annotations survive the round trip, and exactly when the type name is split off at
    the right place. */
module SalTheorems {
  import opened SalCodec

  // ---------------------------------------------------------------------------------------------
  // What replacement d and the later ones cannot undo

  predicate Keeps(c: char, d: nat) {
    c != '_' && DigitValue(c) <= d && Code(c) <= d
  }

  /** The text without underscores and without the digits and characters of later replacements. */
  function Kept(s: string, d: nat): string {
    if s == [] then [] else (if Keeps(s[0], d) then [s[0]] else []) + Kept(s[1..], d)
  }

  lemma {:induction false} KeptConcat(a: string, b: string, d: nat)
    ensures Kept(a + b, d) == Kept(a, d) + Kept(b, d)
  {
    if a == [] {
      assert a + b == b;
    } else {
      assert (a + b)[1..] == a[1..] + b;
      KeptConcat(a[1..], b, d);
    }
  }

  lemma {:induction false} KeptUnderscores(n: nat, d: nat)
    ensures Kept(Underscores(n), d) == []
  {
    if n > 0 {
      assert Underscores(n)[1..] == Underscores(n - 1);
      KeptUnderscores(n - 1, d);
    }
  }

  lemma KeptAfter(n: nat, z: string, d: nat)
    ensures Kept(Underscores(n) + z, d) == Kept(z, d)
  {
    KeptConcat(Underscores(n), z, d);
    KeptUnderscores(n, d);
  }

  lemma KeptFirst(c: char, z: string, d: nat)
    ensures Kept([c] + z, d) == (if Keeps(c, d) then [c] else []) + Kept(z, d)
  {
    assert ([c] + z)[1..] == z;
  }

  /** A swallowed digit is lost for good: replacement d puts an escaped character in its place. */
  lemma {:induction false} StageLoses(s: string, d: nat, left: nat)
    requires 1 <= d <= 7 && Swallows(s, d, left)
    ensures Kept(ReplaceEscape(Underscores(left) + Expand(s, d, 7), d), d) != Kept(s, d)
  {
    var c, rest := s[0], Expand(s[1..], d, 7);
    DigitsAndCodes(c);
    ExpandFirst(s, d);
    RunOpens(s[1..], d, 3);
    assert s == [c] + s[1..];
    KeptFirst(c, s[1..], d);
    if c == Digit(d) && left >= 3 && RightRun(s[1..], d) >= 3 {
      SwallowedFirst(c, s[1..], rest, d, left);
    } else {
      LosesLater(s, d, left, c, rest);
    }
  }

  lemma SwallowedFirst(c: char, s: string, rest: string, d: nat, left: nat)
    requires 1 <= d <= 7 && c == Digit(d) && left >= 3 && Opens(rest, 3)
    ensures Kept(ReplaceEscape(Underscores(left) + ([c] + rest), d), d) != [c] + Kept(s, d)
  {
    var z := rest[3..];
    assert rest == Underscores(3) + z;
    assert Underscores(left) + ([c] + rest) == Underscores(left) + [Digit(d)] + Underscores(3) + z;
    Matches(left, z, d);
    var r := ReplaceEscape(z, d);
    assert Underscores(left - 3) + [Escaped(d)] + r == Underscores(left - 3) + ([Escaped(d)] + r);
    KeptAfter(left - 3, [Escaped(d)] + r, d);
    DigitsAndCodes(Escaped(d));
    KeptFirst(Escaped(d), r, d);
    assert ([Escaped(d)] + Kept(r, d))[0] == Escaped(d) && ([c] + Kept(s, d))[0] == c;
  }

  lemma {:induction false} LosesLater(s: string, d: nat, left: nat, c: char, rest: string)
    requires 1 <= d <= 7 && s != [] && Swallows(s, d, left) && c == s[0] && rest == Expand(s[1..], d, 7)
    requires !(c == Digit(d) && left >= 3 && Opens(rest, 3)) && !(c == Digit(d) && left >= 3 && RightRun(s[1..], d) >= 3)
    ensures Kept(ReplaceEscape(Underscores(left) + Expand(s, d, 7), d), d) != (if Keeps(c, d) then [c] else []) + Kept(s[1..], d)
    decreases s, 0
  {
    hide ReplaceEscape, Expand, Digit, Escaped, Opens, Kept;
    DigitsAndCodes(c);
    ExpandFirst(s, d);
    var tail := Kept(s[1..], d);
    if c == '_' {
      StageLoses(s[1..], d, left + 1);
      Join(left, 1, rest);
      assert Underscores(1) == ['_'];
      NothingKept(tail);
    } else if Code(c) > d {
      StageLoses(s[1..], d, 3);
      PassesBlock(left, Code(c), rest, d);
      KeptBlock(left, Code(c), ReplaceEscape(Underscores(3) + rest, d), d);
      NothingKept(tail);
    } else {
      StageLoses(s[1..], d, 0);
      Nothing(rest);
      if Code(c) == d {
        MatchesBlock(left, rest, d);
      } else {
        PassesPlain(left, c, rest, d);
      }
      var r := ReplaceEscape(rest, d);
      KeptAfter(left, [c] + r, d);
      KeptFirst(c, r, d);
      SamePrefix(if Keeps(c, d) then [c] else [], Kept(r, d), tail);
    }
  }

  lemma NothingKept(z: string)
    ensures [] + z == z
  {
  }

  lemma SamePrefix(p: string, a: string, b: string)
    ensures p + a == p + b ==> a == b
  {
    if p + a == p + b {
      assert (p + a)[|p|..] == a && (p + b)[|p|..] == b;
    }
  }

  lemma KeptBlock(left: nat, j: nat, z: string, d: nat)
    requires 1 <= d < j <= 7
    ensures Kept(Underscores(left) + (Underscores(3) + [Digit(j)] + z), d) == Kept(z, d)
  {
    assert Underscores(3) + [Digit(j)] + z == Underscores(3) + ([Digit(j)] + z);
    KeptAfter(left, Underscores(3) + ([Digit(j)] + z), d);
    KeptAfter(3, [Digit(j)] + z, d);
    KeptFirst(Digit(j), z, d);
  }

  /** Later replacements touch only what is not kept. */
  lemma {:induction false} LaterKeeps(s: string, k: nat, d: nat)
    requires 1 <= d < k <= 7
    ensures Kept(ReplaceEscape(s, k), d) == Kept(s, d)
    decreases |s|
  {
    if |s| < 7 {
    } else if s[..7] == Escape(k) {
      LaterKeeps(s[7..], k, d);
      assert s == Underscores(3) + ([Digit(k)] + (Underscores(3) + s[7..]));
      KeptAfter(3, [Digit(k)] + (Underscores(3) + s[7..]), d);
      KeptFirst(Digit(k), Underscores(3) + s[7..], d);
      KeptAfter(3, s[7..], d);
      KeptFirst(Escaped(k), ReplaceEscape(s[7..], k), d);
    } else {
      LaterKeeps(s[1..], k, d);
      KeptFirst(s[0], ReplaceEscape(s[1..], k), d);
    }
  }

  lemma {:induction false} DecodingKeeps(s: string, k: nat, d: nat)
    requires 1 <= d < k <= 8
    ensures Kept(DecodeFrom(s, k), d) == Kept(s, d)
    decreases 8 - k
  {
    if k < 8 {
      LaterKeeps(s, k, d);
      DecodingKeeps(ReplaceEscape(s, k), k + 1, d);
    }
  }

  /** No digit of the text is taken for an escape by replacement d. */
  predicate Spared(s: string, d: nat)
    requires 1 <= d <= 7
  {
    !Swallows(s, d, 0)
  }

  ghost predicate SparedFrom(s: string, k: nat)
    requires 1 <= k
  {
    forall d: nat :: k <= d <= 7 ==> Spared(s, d)
  }

  /** No digit of the text is taken for an escape at any of the replacements. */
  ghost predicate Unambiguous(s: string) {
    SparedFrom(s, 1)
  }

  lemma StageDecides(s: string, k: nat)
    requires 1 <= k <= 7
    ensures Spared(s, k) ==> ReplaceEscape(Expand(s, k, 7), k) == Expand(s, k + 1, 7)
    ensures !Spared(s, k) ==> Kept(ReplaceEscape(Expand(s, k, 7), k), k) != Kept(s, k)
  {
    Nothing(Expand(s, k, 7));
    Nothing(Expand(s, k + 1, 7));
    if Spared(s, k) {
      StageRecovers(s, k, 0);
    } else {
      StageLoses(s, k, 0);
    }
  }

  lemma {:induction false} DecodeStages(s: string, k: nat)
    requires 1 <= k <= 8
    ensures DecodeFrom(Expand(s, k, 7), k) == s <==> SparedFrom(s, k)
    decreases 8 - k
  {
    hide Expand, ReplaceEscape, Kept, Spared;
    if k == 8 {
      ExpandNone(s, 8, 7);
    } else {
      StageDecides(s, k);
      DecodingKeeps(ReplaceEscape(Expand(s, k, 7), k), k + 1, k);
      if Spared(s, k) {
        DecodeStages(s, k + 1);
      }
    }
  }

  /** For every text: sequential leftmost replacement recovers it if and only if none of its digits is swallowed. */
  lemma DecodeRecoversExactly(s: string)
    ensures DecodeFrom(Expand(s, 1, 7), 1) == s <==> Unambiguous(s)
  {
    DecodeStages(s, 1);
  }

  // ---------------------------------------------------------------------------------------------
  // A simple sufficient condition

  predicate Separator(c: char) {
    c == '_' || Code(c) > 0
  }

  /** No digit 1-7 stands between two separators. */
  ghost predicate NoLoneDigit(s: string) {
    forall i :: 0 < i < |s| - 1 && Separator(s[i - 1]) && Separator(s[i + 1]) ==> DigitValue(s[i]) == 0
  }

  /** Digit d at position i, between separators; at the front the underscores before s have to do. */
  predicate Between(s: string, d: nat, left: nat, i: nat) {
    && i + 1 < |s| && DigitValue(s[i]) == d && Separator(s[i + 1])
    && (if i == 0 then left >= 3 else Separator(s[i - 1]))
    && (i == 1 && s[0] == '_' ==> left >= 2)
  }

  lemma BetweenLater(s: string, d: nat, left: nat, next: nat, i: nat)
    requires s != [] && Between(s[1..], d, next, i)
    requires if s[0] == '_' then next == left + 1 else if Separator(s[0]) then next <= 3 else next == 0
    ensures Between(s, d, left, i + 1)
  {
    var t := s[1..];
    assert s[i + 1] == t[i] && s[i + 2] == t[i + 1];
    assert i > 0 ==> s[i] == t[i - 1];
  }

  lemma {:induction false} SwallowedBetween(s: string, d: nat, left: nat) returns (i: nat)
    requires 1 <= d <= 7 && Swallows(s, d, left)
    ensures Between(s, d, left, i)
  {
    DigitsAndCodes(s[0]);
    if s[0] == Digit(d) && left >= 3 && RightRun(s[1..], d) >= 3 {
      i := 0;
      assert s[1] == s[1..][0];
    } else {
      var next := if s[0] == '_' then left + 1 else if Code(s[0]) > d then 3 else 0;
      i := SwallowedBetween(s[1..], d, next);
      BetweenLater(s, d, left, next, i);
      i := i + 1;
    }
  }

  lemma SwallowedIsLone(text: string, d: nat)
    requires 1 <= d <= 7 && text != [] && Separator(text[|text| - 1])
    requires Swallows(['_'] + text + ['_'], d, 0)
    ensures !NoLoneDigit(text)
  {
    var s := ['_'] + text + ['_'];
    var i := SwallowedBetween(s, d, 0);
    DigitsAndCodes(text[|text| - 1]);
    assert s[i - 1] == text[i - 2] && s[i] == text[i - 1];
    assert s[i + 1] == text[i];
    assert Separator(text[i - 2]) && Separator(text[i]) && DigitValue(text[i - 1]) == d;
  }

  /** Annotations that end in an underscore or an escaped character and have no lone digit are safe. */
  lemma NoLoneDigitIsUnambiguous(text: string)
    requires text != [] && Separator(text[|text| - 1]) && NoLoneDigit(text)
    ensures Unambiguous(['_'] + text + ['_'])
  {
    forall d: nat | 1 <= d <= 7 ensures Spared(['_'] + text + ['_'], d) {
      if Swallows(['_'] + text + ['_'], d, 0) {
        SwallowedIsLone(text, d);
      }
    }
  }

  /** Without it the round trip fails: the digit of ")1(" is read as an escape. */
  lemma LoneDigitSwallowed()
    ensures !Unambiguous("_)1(_")
  {
    var s := "_)1(_";
    assert s[1..] == ")1(_" && s[1..][1..] == "1(_" && s[1..][1..][1..] == "(_";
    assert RightRun("(_", 1) == 3;
    assert Swallows("1(_", 1, 3);
    assert Swallows(")1(_", 1, 1);
    assert Swallows(s, 1, 0) && !Spared(s, 1);
  }
}
