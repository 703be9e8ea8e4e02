/** Splitting an encoded annotation off a parameter's type, and the whole round trip. */
module SalParameter {
  import opened SalCodec
  import opened SalTheorems

  ghost predicate PairAt(s: string, p: int) {
    0 <= p && p + 2 <= |s| && s[p] == '_' && s[p + 1] == '_'
  }

  /** str.rfind("__") in the first n characters. */
  function LastPair(s: string, n: nat): (p: int)
    requires n <= |s|
    ensures -1 <= p && (p >= 0 ==> p + 2 <= n && PairAt(s, p))
    ensures forall q :: p < q <= n - 2 ==> !PairAt(s, q)
  {
    if n < 2 then -1
    else if s[n - 2] == '_' && s[n - 1] == '_' then n - 2
    else LastPair(s, n - 1)
  }

  /** The annotation and the type left after decode_sal. */
  function Decoded(sal: string, kind: string): (string, string) {
    var pos := LastPair(kind, |kind|);
    if pos > 0 then (DecodeFrom(kind[..pos + 2], 1), kind[pos + 2..]) else (sal, kind)
  }

  class Parameter {
    var kind: string
    var sal: string

    constructor (kind: string)
      ensures this.kind == kind && sal == ""
    {
      this.kind := kind;
      sal := "";
    }

    method DecodeSal()
      modifies this
      ensures (sal, kind) == Decoded(old(sal), old(kind))
      ensures var pos := LastPair(old(kind), |old(kind)|);
        if pos > 0 then old(kind) == old(kind)[..pos + 2] + kind && sal == DecodeFrom(old(kind)[..pos + 2], 1)
        else kind == old(kind) && sal == old(sal)
    {
      var pos := LastPair(kind, |kind|);
      if pos > 0 {
        pos := pos + 2;
        sal := kind[..pos];
        kind := kind[pos..];
        sal := DecodeText(sal);
      }
    }
  }

  function Encoded(text: string): string {
    ['_'] + Expand(text, 1, 7) + ['_']
  }

  /** The added underscores are as good as part of the text. */
  lemma EncodedIsExpanded(text: string)
    ensures Encoded(text) == Expand(['_'] + text + ['_'], 1, 7)
  {
    ExpandConcat(['_'], text);
    ExpandConcat(['_'] + text, ['_']);
    assert Expand(['_'], 1, 7) == ['_'];
  }

  predicate EndsOpen(text: string) {
    text != [] && Separator(text[|text| - 1])
  }

  lemma LastOfExpand(text: string)
    requires text != []
    ensures Expand(text, 1, 7) != [] && (Expand(text, 1, 7)[|Expand(text, 1, 7)| - 1] == '_' <==> Separator(text[|text| - 1]))
  {
    var front, c := text[..|text| - 1], text[|text| - 1];
    assert text == front + [c];
    ExpandConcat(front, [c]);
    DigitsAndCodes(c);
    assert Expand([c], 1, 7) == if 1 <= Code(c) then Escape(Code(c)) else [c];
  }

  ghost predicate PlainName(name: string) {
    (name != [] ==> name[0] != '_') && forall p :: !PairAt(name, p)
  }

  /** The last pair of underscores is the end of the annotation exactly when the annotation ends in an
      underscore or an escaped character and the name has no pair of its own and does not extend one. */
  lemma SplitsExactly(text: string, name: string)
    ensures var full, w := Encoded(text) + name, |Encoded(text)|;
      var p := LastPair(full, |full|);
      p > 0 && p + 2 == w <==> EndsOpen(text) && PlainName(name)
  {
    var x := Expand(text, 1, 7);
    var full, w := Encoded(text) + name, |Encoded(text)|;
    var p := LastPair(full, |full|);
    assert w == |x| + 2 && full[w - 1] == '_';
    assert |x| > 0 ==> full[w - 2] == x[|x| - 1];
    if text != [] {
      LastOfExpand(text);
    }
    forall q | w <= q ensures PairAt(full, q) <==> PairAt(name, q - w) {
    }
    assert PairAt(full, w - 1) <==> name != [] && name[0] == '_';
    if EndsOpen(text) && PlainName(name) {
      assert PairAt(full, w - 2);
      assert forall q :: w - 2 < q ==> !PairAt(full, q);
    }
    if p > 0 && p + 2 == w {
      forall r ensures !PairAt(name, r) {
        assert r >= 0 ==> (PairAt(full, r + w) <==> PairAt(name, r));
      }
    }
  }

  /** For every annotation text and type name, decode_sal after encoding gives back the text between
      the two added underscores and the name if and only if the split is right and no digit is swallowed. */
  lemma RoundTripExactly(text: string, name: string)
    ensures Decoded("", Encoded(text) + name) == (['_'] + text + ['_'], name)
            <==> EndsOpen(text) && PlainName(name) && Unambiguous(['_'] + text + ['_'])
  {
    var full, w := Encoded(text) + name, |Encoded(text)|;
    var p := LastPair(full, |full|);
    SplitsExactly(text, name);
    EncodedIsExpanded(text);
    DecodeRecoversExactly(['_'] + text + ['_']);
    hide Encoded, Unambiguous, PlainName, EndsOpen;
    if p > 0 && p + 2 == w {
      assert full[..w] == Encoded(text) && full[w..] == name;
    } else {
      assert |Decoded("", full).1| != |name|;
    }
  }

  /** The documented case: annotations that end in an underscore or an escaped character, without a
      digit 1-7 between separators, in front of a name without a double or a leading underscore. */
  lemma RoundTrip(text: string, name: string)
    requires EndsOpen(text) && NoLoneDigit(text) && PlainName(name)
    ensures Decoded("", Encoded(text) + name) == (['_'] + text + ['_'], name)
  {
    NoLoneDigitIsUnambiguous(text);
    RoundTripExactly(text, name);
  }
}
