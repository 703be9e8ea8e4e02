/** Source annotations are turned into identifiers so that a header parser accepts them, and turned
    back afterwards: seven characters are written as a digit between underscores, and the whole is
    put between underscores in front of the type name. Both directions are sequences of whole-string
    replacements. */
module SalCodec {

  /** Position of an escaped character in the table, from 1; 0 for all others. */
  function Code(c: char): nat {
    match c
    case '(' => 1
    case ')' => 2
    case '*' => 3
    case ' ' => 4
    case '"' => 5
    case '-' => 6
    case ',' => 7
    case _ => 0
  }

  function Escaped(k: nat): (c: char)
    requires 1 <= k <= 7
    ensures Code(c) == k
  {
    if k == 1 then '(' else if k == 2 then ')' else if k == 3 then '*' else if k == 4 then ' '
    else if k == 5 then '"' else if k == 6 then '-' else ','
  }

  function DigitValue(c: char): nat {
    match c
    case '1' => 1
    case '2' => 2
    case '3' => 3
    case '4' => 4
    case '5' => 5
    case '6' => 6
    case '7' => 7
    case _ => 0
  }

  function Digit(k: nat): (c: char)
    requires 1 <= k <= 7
    ensures DigitValue(c) == k && Code(c) == 0 && c != '_'
  {
    if k == 1 then '1' else if k == 2 then '2' else if k == 3 then '3' else if k == 4 then '4'
    else if k == 5 then '5' else if k == 6 then '6' else '7'
  }

  lemma DigitsAndCodes(c: char)
    ensures 1 <= Code(c) <= 7 ==> c == Escaped(Code(c)) && DigitValue(c) == 0 && c != '_'
    ensures 1 <= DigitValue(c) <= 7 ==> c == Digit(DigitValue(c))
    ensures Code(c) <= 7 && DigitValue(c) <= 7
    ensures c == '_' ==> Code(c) == 0 && DigitValue(c) == 0
  {
  }

  function Escape(k: nat): (s: string)
    requires 1 <= k <= 7
    ensures |s| == 7
  {
    ['_', '_', '_', Digit(k), '_', '_', '_']
  }

  // ---------------------------------------------------------------------------------------------
  // Encoding

  /** str.replace of one character by its escape. */
  function ReplaceChar(s: string, k: nat): string
    requires 1 <= k <= 7
  {
    if s == [] then [] else (if s[0] == Escaped(k) then Escape(k) else [s[0]]) + ReplaceChar(s[1..], k)
  }

  /** Characters with codes lo..hi expanded, all others kept. */
  function Expand(s: string, lo: nat, hi: nat): string
    requires 1 <= lo && hi <= 7
  {
    if s == [] then []
    else (if lo <= Code(s[0]) <= hi then Escape(Code(s[0])) else [s[0]]) + Expand(s[1..], lo, hi)
  }

  lemma {:induction false} ReplaceCharConcat(a: string, b: string, k: nat)
    requires 1 <= k <= 7
    ensures ReplaceChar(a + b, k) == ReplaceChar(a, k) + ReplaceChar(b, k)
  {
    if a == [] {
      assert a + b == b;
    } else {
      assert (a + b)[1..] == a[1..] + b;
      ReplaceCharConcat(a[1..], b, k);
    }
  }

  lemma {:induction false} ReplaceCharKeeps(s: string, k: nat)
    requires 1 <= k <= 7 && forall i :: 0 <= i < |s| ==> s[i] != Escaped(k)
    ensures ReplaceChar(s, k) == s
  {
    if s != [] {
      ReplaceCharKeeps(s[1..], k);
    }
  }

  /** Replacing the next character of the table expands just that code: escapes hold no escaped characters. */
  lemma {:induction false} ReplaceCharExpands(s: string, k: nat)
    requires 1 <= k <= 7
    ensures ReplaceChar(Expand(s, 1, k - 1), k) == Expand(s, 1, k)
  {
    if s != [] {
      var head := if 1 <= Code(s[0]) <= k - 1 then Escape(Code(s[0])) else [s[0]];
      ReplaceCharConcat(head, Expand(s[1..], 1, k - 1), k);
      ReplaceCharExpands(s[1..], k);
      if |head| == 7 {
        ReplaceCharKeeps(head, k);
      } else {
        DigitsAndCodes(s[0]);
        assert ReplaceChar([s[0]], k) == if s[0] == Escaped(k) then Escape(k) + ReplaceChar([], k) else [s[0]] + ReplaceChar([], k);
      }
    }
  }

  lemma {:induction false} ExpandNone(s: string, lo: nat, hi: nat)
    requires 1 <= lo && hi <= 7 && (hi < lo || forall i :: 0 <= i < |s| ==> Code(s[i]) < lo)
    ensures Expand(s, lo, hi) == s
  {
    if s != [] {
      ExpandNone(s[1..], lo, hi);
    }
  }

  /** What each character becomes; with ExpandConcat this determines the whole encoding. */
  lemma EscapeTable(c: char)
    ensures Expand([c], 1, 7) ==
      match c
      case '(' => "___1___"
      case ')' => "___2___"
      case '*' => "___3___"
      case ' ' => "___4___"
      case '"' => "___5___"
      case '-' => "___6___"
      case ',' => "___7___"
      case _ => [c]
  {
    assert [c][1..] == [];
    assert Expand([c], 1, 7) == (if 1 <= Code(c) <= 7 then Escape(Code(c)) else [c]) + Expand([], 1, 7);
  }

  lemma {:induction false} ExpandConcat(a: string, b: string)
    ensures Expand(a + b, 1, 7) == Expand(a, 1, 7) + Expand(b, 1, 7)
  {
    if a == [] {
      assert a + b == b;
    } else {
      assert (a + b)[1..] == a[1..] + b;
      ExpandConcat(a[1..], b);
    }
  }

  /** The annotation as an identifier prefix. */
  method EncodeSal(text: string) returns (sal: string)
    ensures sal == ['_'] + Expand(text, 1, 7) + ['_']
  {
    sal := text;
    ExpandNone(text, 1, 0);
    for k := 1 to 8
      invariant sal == Expand(text, 1, k - 1)
    {
      ReplaceCharExpands(text, k);
      sal := ReplaceChar(sal, k);
    }
    sal := ['_'] + sal + ['_'];
  }

  // ---------------------------------------------------------------------------------------------
  // Decoding

  /** str.replace of one escape: leftmost occurrences, not overlapping. */
  function ReplaceEscape(s: string, k: nat): string
    requires 1 <= k <= 7
  {
    if |s| < 7 then s
    else if s[..7] == Escape(k) then [Escaped(k)] + ReplaceEscape(s[7..], k)
    else [s[0]] + ReplaceEscape(s[1..], k)
  }

  /** Replacements k to 7, in that order. */
  function DecodeFrom(s: string, k: nat): string
    requires 1 <= k <= 8
    decreases 8 - k
  {
    if k == 8 then s else DecodeFrom(ReplaceEscape(s, k), k + 1)
  }

  method DecodeText(sal: string) returns (text: string)
    ensures text == DecodeFrom(sal, 1)
  {
    text := sal;
    for k := 1 to 8
      invariant DecodeFrom(sal, 1) == DecodeFrom(text, k)
    {
      text := ReplaceEscape(text, k);
    }
  }

  // ---------------------------------------------------------------------------------------------
  // When decoding goes wrong

  /** Underscores that open the expansion of s, as far as replacement d is concerned, up to three. */
  function RightRun(s: string, d: nat): nat {
    if s == [] then 0
    else if s[0] == '_' then 1 + RightRun(s[1..], d)
    else if Code(s[0]) >= d && Code(s[0]) > 0 then 3
    else 0
  }

  /** Some digit d of the text itself has three free underscores on its left - its own, or those of a
      character escaped later - and three on its right, and is taken for an escape. `left` counts the
      underscores before s. */
  predicate Swallows(s: string, d: nat, left: nat)
    requires 1 <= d <= 7
  {
    if s == [] then false
    else if s[0] == Digit(d) && left >= 3 && RightRun(s[1..], d) >= 3 then true
    else if s[0] == '_' then Swallows(s[1..], d, left + 1)
    else if Code(s[0]) > d then Swallows(s[1..], d, 3)
    else Swallows(s[1..], d, 0)
  }

  function Underscores(n: nat): (s: string)
    ensures |s| == n && forall i :: 0 <= i < n ==> s[i] == '_'
  {
    seq(n, i => '_')
  }

  ghost predicate Opens(s: string, n: nat) {
    n <= |s| && s[..n] == Underscores(n)
  }

  lemma OpensNext(s: string, n: nat)
    requires n > 0
    ensures Opens(['_'] + s, n) <==> Opens(s, n - 1)
  {
    var x := ['_'] + s;
    if n <= |x| {
      assert x[..n] == ['_'] + s[..n - 1];
      assert Underscores(n) == ['_'] + Underscores(n - 1);
      assert x[..n][1..] == s[..n - 1] && Underscores(n)[1..] == Underscores(n - 1);
    }
  }

  lemma {:induction false} RunOpens(s: string, d: nat, n: nat)
    requires 1 <= d <= 7 && n <= 3
    ensures RightRun(s, d) >= n <==> Opens(Expand(s, d, 7), n)
  {
    if s != [] && n > 0 {
      var x, rest := Expand(s, d, 7), Expand(s[1..], d, 7);
      DigitsAndCodes(s[0]);
      if s[0] == '_' {
        RunOpens(s[1..], d, n - 1);
        assert x == ['_'] + rest;
        OpensNext(rest, n);
      } else if Code(s[0]) >= d && Code(s[0]) > 0 {
        assert x[..3] == Underscores(3);
        assert x[..n] == x[..3][..n] == Underscores(3)[..n] == Underscores(n);
      } else {
        assert x == [s[0]] + rest;
        assert n <= |x| ==> x[..n][0] == s[0] && Underscores(n)[0] == '_';
      }
    }
  }

  lemma NotAtFront(n: nat, c: char, z: string, d: nat)
    requires 1 <= d <= 7 && c != '_' && !(c == Digit(d) && n >= 3 && Opens(z, 3))
    ensures var s := Underscores(n) + [c] + z; |s| >= 7 ==> s[..7] != Escape(d)
  {
    var s, e := Underscores(n) + [c] + z, Escape(d);
    if |s| >= 7 {
      assert s[n] == c && (n > 3 ==> s[3] == '_');
      if n == 3 {
        assert s[4..7] == z[..3];
        assert s[..7][4..] == s[4..7] && e[4..] == Underscores(3);
      } else {
        var i := if n < 3 then n else 3;
        assert s[..7][i] == s[i] && s[i] != e[i];
      }
    }
  }

  /** Underscores and a character that do not end in a match are passed over. */
  lemma {:induction false} Passes(n: nat, c: char, z: string, d: nat)
    requires 1 <= d <= 7 && c != '_' && !(c == Digit(d) && n >= 3 && Opens(z, 3))
    ensures ReplaceEscape(Underscores(n) + [c] + z, d) == Underscores(n) + [c] + ReplaceEscape(z, d)
  {
    hide Opens, ReplaceEscape, Escape, Digit, Escaped;
    var s, r := Underscores(n) + [c] + z, ReplaceEscape(z, d);
    NotAtFront(n, c, z, d);
    StepOver(s, d);
    if n == 0 {
      assert s[0] == c && s[1..] == z;
      assert Underscores(0) + [c] + r == [c] + r;
    } else {
      Passes(n - 1, c, z, d);
      assert s[0] == '_' && s[1..] == Underscores(n - 1) + [c] + z;
      Peel(n, [c] + r);
      assert Underscores(n) + [c] + r == Underscores(n) + ([c] + r);
      assert Underscores(n - 1) + [c] + r == Underscores(n - 1) + ([c] + r);
    }
  }

  lemma Peel(n: nat, z: string)
    requires n > 0
    ensures Underscores(n) + z == ['_'] + (Underscores(n - 1) + z)
  {
  }

  lemma StepOver(s: string, d: nat)
    requires 1 <= d <= 7 && s != [] && (|s| >= 7 ==> s[..7] != Escape(d))
    ensures ReplaceEscape(s, d) == [s[0]] + ReplaceEscape(s[1..], d)
  {
  }

  /** Three of the underscores, digit d and three more underscores are a match, the first one. */
  lemma {:induction false} Matches(n: nat, z: string, d: nat)
    requires 1 <= d <= 7 && n >= 3
    ensures ReplaceEscape(Underscores(n) + [Digit(d)] + Underscores(3) + z, d)
         == Underscores(n - 3) + [Escaped(d)] + ReplaceEscape(z, d)
    decreases n, 1
  {
    var s := Underscores(n) + [Digit(d)] + Underscores(3) + z;
    if n == 3 {
      assert s[..7] == Escape(d) && s[7..] == z;
    } else {
      MatchLater(n, z, d);
    }
  }

  /** The text of a match with one underscore taken off the front. */
  lemma MatchTail(n: nat, z: string, d: nat)
    requires 1 <= d <= 7 && n > 3
    ensures var s := Underscores(n) + [Digit(d)] + Underscores(3) + z;
      && s[0] == '_' && s[1..] == Underscores(n - 1) + [Digit(d)] + Underscores(3) + z
      && |s| >= 7 && s[..7] != Escape(d)
  {
    var s := Underscores(n) + [Digit(d)] + Underscores(3) + z;
    assert s[..7][3] == '_' && Escape(d)[3] == Digit(d);
  }

  lemma Front(n: nat, c: char, r: string)
    requires n > 0
    ensures Underscores(n) + [c] + r == ['_'] + (Underscores(n - 1) + [c] + r)
  {
  }

  lemma {:induction false} MatchLater(n: nat, z: string, d: nat)
    requires 1 <= d <= 7 && n > 3
    ensures ReplaceEscape(Underscores(n) + [Digit(d)] + Underscores(3) + z, d)
         == Underscores(n - 3) + [Escaped(d)] + ReplaceEscape(z, d)
    decreases n, 0
  {
    hide ReplaceEscape, Escape, Digit, Escaped, Underscores;
    MatchTail(n, z, d);
    StepOver(Underscores(n) + [Digit(d)] + Underscores(3) + z, d);
    Matches(n - 1, z, d);
    Front(n - 3, Escaped(d), ReplaceEscape(z, d));
  }

  lemma {:induction false} OnlyUnderscores(n: nat, d: nat)
    requires 1 <= d <= 7
    ensures ReplaceEscape(Underscores(n), d) == Underscores(n)
  {
    if n > 0 {
      var s := Underscores(n);
      assert n >= 7 ==> s[..7][3] == '_';
      StepOver(s, d);
      OnlyUnderscores(n - 1, d);
      assert s[1..] == Underscores(n - 1);
    }
  }

  // ---------------------------------------------------------------------------------------------
  // One replacement

  /** With no digit swallowed, replacement d takes back exactly the characters with code d. */
  lemma {:induction false} StageRecovers(s: string, d: nat, left: nat)
    requires 1 <= d <= 7 && !Swallows(s, d, left)
    ensures ReplaceEscape(Underscores(left) + Expand(s, d, 7), d) == Underscores(left) + Expand(s, d + 1, 7)
    decreases s, 1
  {
    if s == [] {
      OnlyUnderscores(left, d);
      assert Underscores(left) + [] == Underscores(left);
    } else {
      StageStep(s, d, left);
    }
  }

  /** What stands at the front once the first character of s is written out. */
  lemma ExpandFirst(s: string, d: nat)
    requires 1 <= d <= 7 && s != []
    ensures var c, rest := s[0], Expand(s[1..], d, 7);
      Expand(s, d, 7) ==
        if d <= Code(c) then Underscores(3) + [Digit(Code(c))] + Underscores(3) + rest else [c] + rest
  {
    DigitsAndCodes(s[0]);
    if d <= Code(s[0]) {
      assert Escape(Code(s[0])) == Underscores(3) + [Digit(Code(s[0]))] + Underscores(3);
    }
  }

  lemma ExpandFirstAbove(s: string, d: nat)
    requires 1 <= d <= 7 && s != []
    ensures var c, rest := s[0], Expand(s[1..], d + 1, 7);
      Expand(s, d + 1, 7) ==
        if d < Code(c) then Underscores(3) + [Digit(Code(c))] + Underscores(3) + rest else [c] + rest
  {
    DigitsAndCodes(s[0]);
    if d < Code(s[0]) {
      assert Escape(Code(s[0])) == Underscores(3) + [Digit(Code(s[0]))] + Underscores(3);
    }
  }

  lemma Join(m: nat, n: nat, z: string)
    ensures Underscores(m) + (Underscores(n) + z) == Underscores(m + n) + z
  {
  }

  lemma Regroup(left: nat, c: char, z: string)
    ensures Underscores(left) + (Underscores(3) + [c] + z) == Underscores(left + 3) + [c] + z
  {
    assert Underscores(3) + [c] + z == Underscores(3) + ([c] + z);
    Join(left, 3, [c] + z);
    assert Underscores(left + 3) + [c] + z == Underscores(left + 3) + ([c] + z);
  }

  /** The block of a character escaped later: passed over up to its last three underscores. */
  lemma PassesBlock(left: nat, j: nat, rest: string, d: nat)
    requires 1 <= d < j <= 7
    ensures ReplaceEscape(Underscores(left) + (Underscores(3) + [Digit(j)] + Underscores(3) + rest), d)
         == Underscores(left) + (Underscores(3) + [Digit(j)] + ReplaceEscape(Underscores(3) + rest, d))
  {
    assert Digit(j) != Digit(d) by {
      DigitsAndCodes(Digit(j));
    }
    hide ReplaceEscape, Digit, Underscores, Opens;
    var c, z := Digit(j), Underscores(3) + rest;
    Passes(left + 3, c, z, d);
    assert Underscores(3) + [c] + Underscores(3) + rest == Underscores(3) + [c] + z;
    Regroup(left, c, z);
    Regroup(left, c, ReplaceEscape(z, d));
  }

  /** The block of a character with code d: replaced. */
  lemma MatchesBlock(left: nat, rest: string, d: nat)
    requires 1 <= d <= 7
    ensures ReplaceEscape(Underscores(left) + (Underscores(3) + [Digit(d)] + Underscores(3) + rest), d)
         == Underscores(left) + ([Escaped(d)] + ReplaceEscape(rest, d))
  {
    hide ReplaceEscape, Digit, Escaped;
    Matches(left + 3, rest, d);
    var z := [Digit(d)] + Underscores(3) + rest;
    assert Underscores(3) + [Digit(d)] + Underscores(3) + rest == Underscores(3) + z;
    Join(left, 3, z);
    assert Underscores(left + 3) + [Digit(d)] + Underscores(3) + rest == Underscores(left + 3) + z;
    var r := ReplaceEscape(rest, d);
    assert Underscores(left) + [Escaped(d)] + r == Underscores(left) + ([Escaped(d)] + r);
  }

  lemma PassesPlain(left: nat, c: char, rest: string, d: nat)
    requires 1 <= d <= 7 && c != '_' && !(c == Digit(d) && left >= 3 && Opens(rest, 3))
    ensures ReplaceEscape(Underscores(left) + ([c] + rest), d) == Underscores(left) + ([c] + ReplaceEscape(rest, d))
  {
    hide ReplaceEscape, Digit, Opens;
    Passes(left, c, rest, d);
    assert Underscores(left) + [c] + rest == Underscores(left) + ([c] + rest);
    var r := ReplaceEscape(rest, d);
    assert Underscores(left) + [c] + r == Underscores(left) + ([c] + r);
  }

  lemma {:induction false} StageStep(s: string, d: nat, left: nat)
    requires 1 <= d <= 7 && s != [] && !Swallows(s, d, left)
    ensures ReplaceEscape(Underscores(left) + Expand(s, d, 7), d) == Underscores(left) + Expand(s, d + 1, 7)
    decreases s, 0
  {
    hide Expand, ReplaceEscape, Digit, Escaped, Opens;
    var c, rest, after := s[0], Expand(s[1..], d, 7), Expand(s[1..], d + 1, 7);
    DigitsAndCodes(c);
    ExpandFirst(s, d);
    ExpandFirstAbove(s, d);
    if c == '_' {
      StageRecovers(s[1..], d, left + 1);
      Join(left, 1, rest);
      Join(left, 1, after);
      assert Underscores(1) == ['_'];
    } else if Code(c) > d {
      StageRecovers(s[1..], d, 3);
      PassesBlock(left, Code(c), rest, d);
      assert Underscores(3) + [Digit(Code(c))] + (Underscores(3) + after) == Underscores(3) + [Digit(Code(c))] + Underscores(3) + after;
    } else {
      RunOpens(s[1..], d, 3);
      StageRecovers(s[1..], d, 0);
      Nothing(rest);
      Nothing(after);
      if Code(c) == d {
        MatchesBlock(left, rest, d);
      } else {
        PassesPlain(left, c, rest, d);
      }
    }
  }

  lemma Nothing(z: string)
    ensures Underscores(0) + z == z
  {
  }
}
