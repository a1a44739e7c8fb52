/** Go's `base64.StdEncoding`: the standard alphabet with '=' padding of section 4 of
    RFC 4648. `EncodeToString` and `DecodeString` are modelled; the decoder is Go's
    default (non-strict) one, which skips '\r' and '\n' anywhere in its input and does
    not check that the unused bits of a padded final quantum are zero. */
module Base64 {
  import opened Results
  import opened Text

  /** A 6-bit digit of the encoding. */
  type Sextet = x: int | 0 <= x < 64

  /** The alphabet of section 4 of RFC 4648: A-Z, a-z, 0-9, '+', '/'. */
  function CharOf(v: Sextet): char
  {
    if v < 26 then ('A' as int + v) as char
    else if v < 52 then ('a' as int + v - 26) as char
    else if v < 62 then ('0' as int + v - 52) as char
    else if v == 62 then '+'
    else '/'
  }

  /** Go's `decodeMap`: the digit a character stands for, if it is in the alphabet. */
  function ValueOf(c: char): (r: Option<Sextet>)
  {
    if 'A' <= c <= 'Z' then Some(c as int - 'A' as int)
    else if 'a' <= c <= 'z' then Some(c as int - 'a' as int + 26)
    else if '0' <= c <= '9' then Some(c as int - '0' as int + 52)
    else if c == '+' then Some(62)
    else if c == '/' then Some(63)
    else None
  }


  predicate InAlphabet(c: char) { ValueOf(c).Some? }

  /** `ValueOf` inverts `CharOf`. */
  lemma ValueOfCharOf(v: Sextet)
    ensures ValueOf(CharOf(v)) == Some(v)
  {
  }

  /** The four digits of the bytes x, y, z (section 4 of RFC 4648); a missing byte is 0. */
  function Digit0(x: Byte): Sextet { x as int / 4 }
  function Digit1(x: Byte, y: Byte): Sextet { x as int % 4 * 16 + y as int / 16 }
  function Digit2(y: Byte, z: Byte): Sextet { y as int % 16 * 4 + z as int / 64 }
  function Digit3(z: Byte): Sextet { z as int % 64 }

  /** The unpadded quantum encoding the bytes x, y, z. */
  function Quantum(x: Byte, y: Byte, z: Byte): string
  {
    [CharOf(Digit0(x)), CharOf(Digit1(x, y)), CharOf(Digit2(y, z)), CharOf(Digit3(z))]
  }

  /** `EncodeToString`: each group of three bytes becomes four characters; a final group
      of one or two bytes is padded with '=' to four characters. */
  function Encode(b: seq<Byte>): (s: string)
    ensures b == [] ==> s == ""
    ensures b != [] ==> |s| >= 4 && |s| > |b|
    decreases |b|
  {
    if |b| == 0 then ""
    else if |b| == 1 then
      [CharOf(Digit0(b[0])), CharOf(Digit1(b[0], 0)), '=', '=']
    else if |b| == 2 then
      [CharOf(Digit0(b[0])), CharOf(Digit1(b[0], b[1])), CharOf(Digit2(b[1], 0)), '=']
    else Quantum(b[0], b[1], b[2]) + Encode(b[3..])
  }

  /** Encoded text is four characters for every started group of three bytes. */
  lemma {:induction false} EncodeLength(b: seq<Byte>)
    ensures |Encode(b)| == (|b| + 2) / 3 * 4
    decreases |b|
  {
    if |b| > 2 {
      EncodeLength(b[3..]);
      assert (|b| + 2) / 3 == (|b[3..]| + 2) / 3 + 1;
    }
  }

  /** The characters Go's decoder skips. */
  predicate IsNewline(c: char) { c == '\r' || c == '\n' }

  function DropNewlines(s: string): (t: string)
    ensures |t| <= |s|
    ensures forall i :: 0 <= i < |t| ==> !IsNewline(t[i]) && t[i] in s
  {
    if s == [] then ""
    else if IsNewline(s[0]) then DropNewlines(s[1..])
    else [s[0]] + DropNewlines(s[1..])
  }

  /** The three bytes carried by four digits; a padded quantum keeps a prefix of them. */
  function Byte0(c0: Sextet, c1: Sextet): Byte { (c0 * 4 + c1 / 16) as Byte }
  function Byte1(c1: Sextet, c2: Sextet): Byte { (c1 % 16 * 16 + c2 / 4) as Byte }
  function Byte2(c2: Sextet, c3: Sextet): Byte { (c2 % 4 * 64 + c3) as Byte }

  /** Decoding of newline-free input, quantum by quantum. Padding ("xx==" or "xxx=") may
      only end the input; a short final quantum, a misplaced '=' or any character outside
      the alphabet is an error. */
  function DecodeQuanta(s: string): Option<seq<Byte>>
    decreases |s|
  {
    if |s| == 0 then Some([])
    else if |s| < 4 then None
    else
      var d0, d1, d2, d3 := ValueOf(s[0]), ValueOf(s[1]), ValueOf(s[2]), ValueOf(s[3]);
      if d0.None? || d1.None? then None
      else if d2.Some? && d3.Some? then
        match DecodeQuanta(s[4..])
        case None => None
        case Some(rest) =>
          Some([Byte0(d0.value, d1.value), Byte1(d1.value, d2.value), Byte2(d2.value, d3.value)] + rest)
      else if |s| == 4 && d2.None? && s[2] == '=' && s[3] == '=' then
        Some([Byte0(d0.value, d1.value)])
      else if |s| == 4 && d2.Some? && s[3] == '=' then
        Some([Byte0(d0.value, d1.value), Byte1(d1.value, d2.value)])
      else None
  }

  /** `DecodeString`; `None` is the `CorruptInputError` case. */
  function Decode(s: string): (r: Option<seq<Byte>>)
    ensures s == "" ==> r == Some([])
    ensures r.Some? ==> 4 * |r.value| <= 3 * |s|
  {
    DecodedLength(DropNewlines(s));
    DecodeQuanta(DropNewlines(s))
  }

  /** Four characters carry at most three bytes. */
  lemma {:induction false} DecodedLength(s: string)
    ensures DecodeQuanta(s).Some? ==> 4 * |DecodeQuanta(s).value| <= 3 * |s|
    decreases |s|
  {
    if |s| >= 4 {
      DecodedLength(s[4..]);
    }
  }

  /** Encoded text holds only alphabet characters and padding. */
  lemma {:induction false} EncodeAlphabet(b: seq<Byte>)
    ensures forall i :: 0 <= i < |Encode(b)| ==> InAlphabet(Encode(b)[i]) || Encode(b)[i] == '='
    decreases |b|
  {
    if |b| > 2 {
      EncodeAlphabet(b[3..]);
      assert Encode(b) == Quantum(b[0], b[1], b[2]) + Encode(b[3..]);
    }
  }

  lemma {:induction false} NoNewlinesKept(s: string)
    requires forall i :: 0 <= i < |s| ==> InAlphabet(s[i]) || s[i] == '='
    ensures DropNewlines(s) == s
    decreases |s|
  {
    if s != [] {
      NoNewlinesKept(s[1..]);
    }
  }

  /** The digits of three bytes give back the three bytes. */
  lemma QuantumRoundTrip(x: Byte, y: Byte, z: Byte)
    ensures Byte0(Digit0(x), Digit1(x, y)) == x
    ensures Byte1(Digit1(x, y), Digit2(y, z)) == y
    ensures Byte2(Digit2(y, z), Digit3(z)) == z
  {
  }

  lemma DecodeFullQuantum(x: Byte, y: Byte, z: Byte, rest: string, tail: seq<Byte>)
    requires DecodeQuanta(rest) == Some(tail)
    ensures DecodeQuanta(Quantum(x, y, z) + rest) == Some([x, y, z] + tail)
  {
    var s := Quantum(x, y, z) + rest;
    assert s[4..] == rest;
    ValueOfCharOf(Digit0(x));
    ValueOfCharOf(Digit1(x, y));
    ValueOfCharOf(Digit2(y, z));
    ValueOfCharOf(Digit3(z));
    assert DecodeQuanta(s) == Some([Byte0(Digit0(x), Digit1(x, y)), Byte1(Digit1(x, y), Digit2(y, z)),
                                    Byte2(Digit2(y, z), Digit3(z))] + tail);
    assert Byte0(Digit0(x), Digit1(x, y)) == x && Byte1(Digit1(x, y), Digit2(y, z)) == y
        && Byte2(Digit2(y, z), Digit3(z)) == z by {
      QuantumRoundTrip(x, y, z);
    }
  }

  lemma DecodeOnePadded(x: Byte)
    ensures DecodeQuanta(Encode([x])) == Some([x])
  {
    var s := [CharOf(Digit0(x)), CharOf(Digit1(x, 0)), '=', '='];
    assert Encode([x]) == s;
    ValueOfCharOf(Digit0(x));
    ValueOfCharOf(Digit1(x, 0));
    assert DecodeQuanta(s) == Some([Byte0(Digit0(x), Digit1(x, 0))]);
    assert Byte0(Digit0(x), Digit1(x, 0)) == x by { QuantumRoundTrip(x, 0, 0); }
  }

  lemma DecodeTwoPadded(x: Byte, y: Byte)
    ensures DecodeQuanta(Encode([x, y])) == Some([x, y])
  {
    var s := [CharOf(Digit0(x)), CharOf(Digit1(x, y)), CharOf(Digit2(y, 0)), '='];
    assert Encode([x, y]) == s;
    ValueOfCharOf(Digit0(x));
    ValueOfCharOf(Digit1(x, y));
    ValueOfCharOf(Digit2(y, 0));
    assert DecodeQuanta(s) == Some([Byte0(Digit0(x), Digit1(x, y)), Byte1(Digit1(x, y), Digit2(y, 0))]);
    assert Byte0(Digit0(x), Digit1(x, y)) == x && Byte1(Digit1(x, y), Digit2(y, 0)) == y by {
      QuantumRoundTrip(x, y, 0);
    }
  }

  lemma {:induction false} DecodeEncodeStep(b: seq<Byte>)
    requires |b| > 2 && DecodeQuanta(Encode(b[3..])) == Some(b[3..])
    ensures DecodeQuanta(Encode(b)) == Some(b)
  {
    DecodeFullQuantum(b[0], b[1], b[2], Encode(b[3..]), b[3..]);
    assert [b[0], b[1], b[2]] + b[3..] == b;
  }

  lemma {:induction false} DecodeEncodeQuanta(b: seq<Byte>)
    ensures DecodeQuanta(Encode(b)) == Some(b)
    decreases |b|
  {
    if |b| == 1 {
      assert b == [b[0]];
      DecodeOnePadded(b[0]);
    } else if |b| == 2 {
      assert b == [b[0], b[1]];
      DecodeTwoPadded(b[0], b[1]);
    } else if |b| > 2 {
      DecodeEncodeQuanta(b[3..]);
      DecodeEncodeStep(b);
    }
  }

  /** Round trip of section 4 of RFC 4648: decoding what was encoded gives the bytes back. */
  lemma DecodeEncode(b: seq<Byte>)
    ensures Decode(Encode(b)) == Some(b)
  {
    EncodeAlphabet(b);
    NoNewlinesKept(Encode(b));
    DecodeEncodeQuanta(b);
  }

  lemma {:induction false} DecodeQuantaRejects(s: string, i: nat)
    requires i < |s| && !InAlphabet(s[i]) && s[i] != '='
    ensures DecodeQuanta(s) == None
    decreases |s|
  {
    if |s| >= 4 && i >= 4 {
      DecodeQuantaRejects(s[4..], i - 4);
    }
  }

  /** Input holding a character that is neither in the alphabet, nor padding, nor a newline
      is rejected. */
  lemma {:induction false} DecodeRejectsForeignChar(s: string, i: nat)
    requires i < |s| && !InAlphabet(s[i]) && s[i] != '=' && !IsNewline(s[i])
    ensures Decode(s) == None
    decreases |s|
  {
    var t := DropNewlines(s);
    var k := ForeignCharSurvives(s, i);
    DecodeQuantaRejects(t, k);
  }

  lemma {:induction false} ForeignCharSurvives(s: string, i: nat) returns (k: nat)
    requires i < |s| && !IsNewline(s[i])
    ensures k < |DropNewlines(s)| && DropNewlines(s)[k] == s[i]
    decreases |s|
  {
    if i == 0 {
      k := 0;
    } else {
      var k' := ForeignCharSurvives(s[1..], i - 1);
      k := if IsNewline(s[0]) then k' else k' + 1;
    }
  }

  /** Once newlines are dropped, input whose length is not a multiple of four is rejected. */
  lemma {:induction false} DecodeNeedsWholeQuanta(s: string)
    requires |DropNewlines(s)| % 4 != 0
    ensures Decode(s) == None
  {
    QuantaLength(DropNewlines(s));
  }

  lemma {:induction false} QuantaLength(s: string)
    requires |s| % 4 != 0
    ensures DecodeQuanta(s) == None
    decreases |s|
  {
    if |s| > 4 {
      QuantaLength(s[4..]);
    }
  }

  /** The text Go's `decodeQuantum` accepts once newlines are gone: whole quanta of
      alphabet characters, where '=' may only stand last, or second to last when the last
      character is '=' too. */
  predicate WellFormed(t: string)
  {
    && |t| % 4 == 0
    && forall i :: 0 <= i < |t| ==>
         InAlphabet(t[i]) || (t[i] == '=' && (i == |t| - 1 || (i == |t| - 2 && t[|t| - 1] == '=')))
  }

  lemma LastQuantumAccepted(t: string)
    requires |t| == 4
    ensures DecodeQuanta(t).Some? <==> WellFormed(t)
  {
    assert DecodeQuanta(t[4..]) == Some([]);
  }

  lemma {:induction false} DecodeQuantaAccepts(t: string)
    ensures DecodeQuanta(t).Some? <==> WellFormed(t)
    decreases |t|
  {
    if |t| % 4 != 0 {
      QuantaLength(t);
    } else if |t| == 4 {
      LastQuantumAccepted(t);
    } else if |t| > 4 {
      var rest := t[4..];
      DecodeQuantaAccepts(rest);
      if WellFormed(t) {
        assert InAlphabet(t[0]) && InAlphabet(t[1]) && InAlphabet(t[2]) && InAlphabet(t[3]);
        forall i | 0 <= i < |rest|
          ensures InAlphabet(rest[i]) || (rest[i] == '=' && (i == |rest| - 1 || (i == |rest| - 2 && rest[|rest| - 1] == '=')))
        {
          assert rest[i] == t[i + 4];
        }
        assert WellFormed(rest);
      }
      if DecodeQuanta(t).Some? {
        assert InAlphabet(t[0]) && InAlphabet(t[1]) && InAlphabet(t[2]) && InAlphabet(t[3]);
        assert WellFormed(rest);
        forall i | 0 <= i < |t|
          ensures InAlphabet(t[i]) || (t[i] == '=' && (i == |t| - 1 || (i == |t| - 2 && t[|t| - 1] == '=')))
        {
          if i >= 4 {
            assert t[i] == rest[i - 4];
          }
        }
      }
    }
  }

  /** `DecodeString` accepts exactly the text that is well formed once its newlines are
      dropped, whatever the unused bits of a padded final quantum hold. */
  lemma DecodeAccepts(s: string)
    ensures Decode(s).Some? <==> WellFormed(DropNewlines(s))
  {
    DecodeQuantaAccepts(DropNewlines(s));
  }

  /** A '=' that neither ends the text nor comes right before a final '=' is rejected
      (Go's "incorrect padding" and "trailing garbage" cases). */
  lemma DecodeRejectsMisplacedPad(s: string, i: nat)
    requires i < |DropNewlines(s)| && DropNewlines(s)[i] == '='
    requires i < |DropNewlines(s)| - 2 || (i == |DropNewlines(s)| - 2 && DropNewlines(s)[i + 1] != '=')
    ensures Decode(s) == None
  {
    DecodeAccepts(s);
  }

  /** The unused bits of a padded final quantum are zero, as section 3.5 of RFC 4648
      requires of an encoder: one final byte leaves four zero bits in the digit before
      "==". */
  lemma {:induction false} EncodePadBitsOne(b: seq<Byte>)
    requires |b| % 3 == 1
    ensures var e := Encode(b);
      && |e| >= 4 && e[|e| - 2] == '=' && e[|e| - 1] == '='
      && InAlphabet(e[|e| - 3]) && ValueOf(e[|e| - 3]).value % 16 == 0
    decreases |b|
  {
    if |b| == 1 {
      ValueOfCharOf(Digit1(b[0], 0));
    } else {
      EncodePadBitsOne(b[3..]);
      var e, rest := Encode(b), Encode(b[3..]);
      assert e == Quantum(b[0], b[1], b[2]) + rest;
      assert e[|e| - 3] == rest[|rest| - 3] && e[|e| - 2] == rest[|rest| - 2] && e[|e| - 1] == rest[|rest| - 1];
    }
  }

  /** Two final bytes leave two zero bits in the digit before "=". */
  lemma {:induction false} EncodePadBitsTwo(b: seq<Byte>)
    requires |b| % 3 == 2
    ensures var e := Encode(b);
      && |e| >= 4 && e[|e| - 1] == '='
      && InAlphabet(e[|e| - 2]) && ValueOf(e[|e| - 2]).value % 4 == 0
    decreases |b|
  {
    if |b| == 2 {
      ValueOfCharOf(Digit2(b[1], 0));
    } else {
      EncodePadBitsTwo(b[3..]);
      var e, rest := Encode(b), Encode(b[3..]);
      assert e == Quantum(b[0], b[1], b[2]) + rest;
      assert e[|e| - 2] == rest[|rest| - 2] && e[|e| - 1] == rest[|rest| - 1];
    }
  }

  /** The decoder is not strict: a final quantum "xy==" is accepted whatever the four
      unused bits of y hold, and yields the one byte made of x and the top bits of y. */
  lemma LaxPaddingAccepted(x: Sextet, y: Sextet)
    ensures DecodeQuanta([CharOf(x), CharOf(y), '=', '=']) == Some([Byte0(x, y)])
  {
    var t := [CharOf(x), CharOf(y), '=', '='];
    ValueOfCharOf(x);
    ValueOfCharOf(y);
    assert DecodeQuanta(t[4..]) == Some([]);
  }
}
