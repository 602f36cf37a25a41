/**
 * The escaping applied to each history message before it is placed in the
 * HTML of the PDF report: three whole-string replacements, ampersand first.
 */
module Export {
  /** The three entities the report writes. */
  const Amp: string := "&amp;"
  const Lt: string := "&lt;"
  const Gt: string := "&gt;"

  /** No entity brings back a character escaped after it. */
  lemma EntitiesClean()
    ensures '<' !in Amp && '>' !in Amp && '>' !in Lt
  {
    assert Amp == ['&', 'a', 'm', 'p', ';'];
    assert Lt == ['&', 'l', 't', ';'];
  }

  /** `s.replace(c, rep)` for a one-character pattern. */
  function ReplaceChar(s: string, c: char, rep: string): (r: string)
    ensures c !in rep ==> c !in r
  {
    if s == [] then [] else (if s[0] == c then rep else [s[0]]) + ReplaceChar(s[1..], c, rep)
  }

  lemma {:induction false} ReplaceCharConcat(a: string, b: string, c: char, rep: string)
    ensures ReplaceChar(a + b, c, rep) == ReplaceChar(a, c, rep) + ReplaceChar(b, c, rep)
  {
    if a == [] {
      assert a + b == b;
    } else {
      assert (a + b)[1..] == a[1..] + b;
      ReplaceCharConcat(a[1..], b, c, rep);
    }
  }

  /** A string without the pattern is left as it is. */
  lemma {:induction false} ReplaceCharAbsent(s: string, c: char, rep: string)
    requires c !in s
    ensures ReplaceChar(s, c, rep) == s
  {
    if s != [] {
      assert c !in s[1..];
      ReplaceCharAbsent(s[1..], c, rep);
    }
  }

  /** The escaping as written: `&` first, then `<`, then `>`. */
  function Escape(s: string): (r: string)
    ensures '<' !in r && '>' !in r
    ensures |r| >= |s|
  {
    var r := ReplaceChar(ReplaceChar(ReplaceChar(s, '&', Amp), '<', Lt), '>', Gt);
    EscapeIsCharwise(s);
    r
  }

  /** The escape of one character. */
  function EscapeOne(c: char): string {
    if c == '&' then Amp else if c == '<' then Lt else if c == '>' then Gt else [c]
  }

  /** The reference escaping: each character replaced by its own escape, independently of its neighbours. */
  function EscapeChars(s: string): (r: string)
    ensures '<' !in r && '>' !in r
    ensures |r| >= |s|
  {
    if s == [] then [] else EscapeOne(s[0]) + EscapeChars(s[1..])
  }

  /** A one-character string: the pattern gives the replacement, any other character stays. */
  lemma ReplaceSingle(d: char, c: char, rep: string)
    ensures ReplaceChar([d], c, rep) == if d == c then rep else [d]
  {
    assert [d][1..] == [];
  }

  /** The three passes on a single character give its escape. */
  lemma EscapeOneChar(c: char)
    ensures ReplaceChar(ReplaceChar(ReplaceChar([c], '&', Amp), '<', Lt), '>', Gt) == EscapeOne(c)
  {
    ReplaceSingle(c, '&', Amp);
    var a := ReplaceChar([c], '&', Amp);
    if c == '&' {
      assert a == Amp;
      EntitiesClean();
      ReplaceCharAbsent(a, '<', Lt);
      ReplaceCharAbsent(a, '>', Gt);
    } else {
      assert a == [c];
      ReplaceSingle(c, '<', Lt);
      var b := ReplaceChar(a, '<', Lt);
      if c == '<' {
        assert b == Lt;
        EntitiesClean();
        ReplaceCharAbsent(b, '>', Gt);
      } else {
        assert b == [c];
        ReplaceSingle(c, '>', Gt);
      }
    }
  }

  /** The three passes distribute over concatenation. */
  lemma PassesConcat(a: string, b: string)
    ensures ReplaceChar(ReplaceChar(ReplaceChar(a + b, '&', Amp), '<', Lt), '>', Gt)
         == ReplaceChar(ReplaceChar(ReplaceChar(a, '&', Amp), '<', Lt), '>', Gt)
          + ReplaceChar(ReplaceChar(ReplaceChar(b, '&', Amp), '<', Lt), '>', Gt)
  {
    ReplaceCharConcat(a, b, '&', Amp);
    var a1, b1 := ReplaceChar(a, '&', Amp), ReplaceChar(b, '&', Amp);
    ReplaceCharConcat(a1, b1, '<', Lt);
    ReplaceCharConcat(ReplaceChar(a1, '<', Lt), ReplaceChar(b1, '<', Lt), '>', Gt);
  }

  /** Because `&` is replaced first, the sequential passes never re-escape an entity: they escape character by character. */
  lemma {:induction false} EscapeIsCharwise(s: string)
    ensures ReplaceChar(ReplaceChar(ReplaceChar(s, '&', Amp), '<', Lt), '>', Gt) == EscapeChars(s)
  {
    if s != [] {
      assert s == [s[0]] + s[1..];
      PassesConcat([s[0]], s[1..]);
      EscapeOneChar(s[0]);
      EscapeIsCharwise(s[1..]);
    }
  }

  /** `s` starts with `&amp;`. */
  predicate StartsAmp(s: string) {
    |s| >= 5 && s[0] == '&' && s[1] == 'a' && s[2] == 'm' && s[3] == 'p' && s[4] == ';'
  }

  /** `s` starts with `&lt;`. */
  predicate StartsLt(s: string) {
    |s| >= 4 && s[0] == '&' && s[1] == 'l' && s[2] == 't' && s[3] == ';'
  }

  /** `s` starts with `&gt;`. */
  predicate StartsGt(s: string) {
    |s| >= 4 && s[0] == '&' && s[1] == 'g' && s[2] == 't' && s[3] == ';'
  }

  /** Decoding of the three entities, left to right; any other character stands for itself. */
  function Unescape(s: string): string
    decreases |s|
  {
    if s == [] then []
    else if StartsAmp(s) then "&" + Unescape(s[5..])
    else if StartsLt(s) then "<" + Unescape(s[4..])
    else if StartsGt(s) then ">" + Unescape(s[4..])
    else [s[0]] + Unescape(s[1..])
  }

  /** The escaped text shows the original message exactly. */
  lemma {:induction false} EscapeRoundTrip(s: string)
    ensures Unescape(Escape(s)) == s
  {
    EscapeIsCharwise(s);
    EscapeCharsRoundTrip(s);
  }

  /** Decoding consumes a character's escape and gives the character back. */
  lemma UnescapeStep(c: char, rest: string)
    ensures Unescape(EscapeOne(c) + rest) == [c] + Unescape(rest)
  {
    var t := EscapeOne(c) + rest;
    if c == '&' {
      assert StartsAmp(t) && t[5..] == rest;
    } else if c == '<' {
      assert !StartsAmp(t) && StartsLt(t) && t[4..] == rest;
    } else if c == '>' {
      assert !StartsAmp(t) && !StartsLt(t) && StartsGt(t) && t[4..] == rest;
    } else {
      assert t[0] == c && t[1..] == rest;
    }
  }

  lemma {:induction false} EscapeCharsRoundTrip(s: string)
    ensures Unescape(EscapeChars(s)) == s
  {
    if s != [] {
      UnescapeStep(s[0], EscapeChars(s[1..]));
      EscapeCharsRoundTrip(s[1..]);
      assert s == [s[0]] + s[1..];
    }
  }
}
