// The header of an IPD frame, byte by byte: which views _handle_ipd_data accepts, and which lead
// it out of what the language defines.
module AtHeader {
  import opened Basics
  import opened AtSpec

  // h is the header of a frame of n bytes: "+IPD,", one to three digits, and a colon (a zero
  // byte is taken for the colon as well).
  ghost predicate IsHeader(h: seq<byte>, n: nat) {
    && 7 <= |h| <= 9 && h[..5] == IPD_TAG
    && AllDigits(h[5..|h| - 1]) && Value(h[5..|h| - 1]) == n
    && EndsField(h[|h| - 1])
  }

  ghost predicate EndsInHeader(s: seq<byte>, n: nat) {
    exists k: nat :: k <= |s| && IsHeader(s[k..], n)
  }

  predicate EndsField(b: byte) {
    b == COLON || b == 0
  }

  // Exactly eight bytes, the last three of them digits of a number that is not 0.
  predicate CutHeader(v: seq<byte>) {
    |v| == 8 && AllDigits(v[5..]) && Value(v[5..]) > 0
  }

  // Eight bytes or more without an end of the number.
  predicate LongField(v: seq<byte>) {
    |v| >= 13 && forall j :: 5 <= j < 13 ==> !EndsField(v[j])
  }

  ghost predicate WholeHeader(v: seq<byte>) {
    exists h: nat, n: nat :: h <= |v| && n > 0 && IsHeader(v[..h], n)
  }

  // The same in plain numbers.
  lemma HeaderIs(h: seq<byte>, n: nat)
    ensures IsHeader(h, n) <==>
              && (|h| == 7 || |h| == 8 || |h| == 9) && h[..5] == [43, 73, 80, 68, 44]
              && (forall j :: 5 <= j < |h| - 1 ==> 48 <= h[j] <= 57) && (h[|h| - 1] == 58 || h[|h| - 1] == 0)
              && n == (if |h| == 7 then h[5] as int - 48
                       else if |h| == 8 then 10 * (h[5] as int - 48) + (h[6] as int - 48)
                       else 100 * (h[5] as int - 48) + 10 * (h[6] as int - 48) + (h[7] as int - 48))
  {
    if 7 <= |h| <= 9 {
      var d := h[5..|h| - 1];
      assert forall j :: 0 <= j < |d| ==> d[j] == h[5 + j];
      assert forall j :: 5 <= j < |h| - 1 ==> h[j] == d[j - 5];
      assert AllDigits(d) <==> forall j :: 5 <= j < |h| - 1 ==> 48 <= h[j] <= 57;
      if AllDigits(d) {
        ValueIs(d);
      }
      hide Value, AllDigits;
    }
  }

  lemma ValueIs(d: seq<byte>)
    requires 1 <= |d| <= 3 && AllDigits(d)
    ensures Value(d) == (if |d| == 1 then d[0] as int - 48
                         else if |d| == 2 then 10 * (d[0] as int - 48) + (d[1] as int - 48)
                         else 100 * (d[0] as int - 48) + 10 * (d[1] as int - 48) + (d[2] as int - 48))
  {
    if |d| > 1 {
      ValueIs(d[..|d| - 1]);
    } else {
      assert Value(d[..0]) == 0;
    }
  }

  // ---- The field between the comma and the colon ------------------------------------------------

  lemma SliceOfPrefix(v: seq<byte>, m: nat, i: nat, n: nat)
    requires i + n <= m <= |v|
    ensures v[..m][i..][..n] == v[i..i + n]
  {
  }

  lemma PrefixSlice(v: seq<byte>, m: nat, i: nat, j: nat)
    requires i <= j <= m <= |v|
    ensures v[..m][i..j] == v[i..j]
  {
  }

  lemma CommaAt(v: seq<byte>)
    requires IPD_TAG <= v
    ensures |CString(v)| >= 5 && IndexOf(CString(v), COMMA) == 4
  {
    assert forall j :: 0 <= j < 5 ==> v[j] == IPD_TAG[j];
    var c := CString(v);
    assert |c| >= 5 && c[4] == v[4] == COMMA;
    assert forall j :: 0 <= j < 4 ==> c[j] == v[j] == IPD_TAG[j] != COMMA;
  }

  // Where the field ends.
  lemma FieldEnds(v: seq<byte>)
    requires IPD_TAG <= v
    ensures var f := |Field(v)|;
            && 5 + f <= |v| && Field(v) == v[5..5 + f]
            && (forall j :: 5 <= j < 5 + f ==> !EndsField(v[j]))
            && (5 + f < |v| ==> EndsField(v[5 + f]))
  {
    CommaAt(v);
    var c := CString(v);
    var r := c[5..];
    var f := IndexOf(r, COLON);
    SliceOfPrefix(v, |c|, 5, f);
    assert forall j :: 0 <= j < f ==> r[j] == v[5 + j] != 0;
    if f < |r| {
      assert r[f] == v[5 + f];
    }
  }

  lemma FieldIs(v: seq<byte>, f: nat)
    requires IPD_TAG <= v && 5 + f <= |v| && forall j :: 5 <= j < 5 + f ==> !EndsField(v[j])
    requires 5 + f < |v| ==> EndsField(v[5 + f])
    ensures Field(v) == v[5..5 + f]
  {
    FieldEnds(v);
    hide Field;
    assert |Field(v)| == f;
  }

  lemma LongFieldIs(v: seq<byte>)
    requires IPD_TAG <= v
    ensures |Field(v)| >= 8 <==> LongField(v)
  {
    FieldEnds(v);
    hide Field;
  }

  lemma ThreeDigits(d: seq<byte>)
    requires |d| <= 3
    ensures Value(d) < 1000
  {
    if |d| == 3 {
      assert Value(d[..2][..1][..0]) == 0;
    } else if |d| == 2 {
      assert Value(d[..1][..0]) == 0;
    }
  }

  // A view that is accepted has one to three digits, and their value is the length.
  lemma AcceptedDigits(v: seq<byte>)
    requires !IpdRefused(v)
    ensures |v| >= 8 && 1 <= |Field(v)| <= 3 && AllDigits(Field(v))
    ensures IpdFormatLen(v) == 6 + |Field(v)| && 0 < IpdDataLen(v) == Value(Field(v)) < 1000
  {
    ThreeDigits(Field(v));
  }

  lemma AcceptsDigits(v: seq<byte>)
    requires |v| >= 8 && |Field(v)| <= 3 && AllDigits(Field(v)) && Value(Field(v)) > 0
    ensures !IpdRefused(v)
  {
    ThreeDigits(Field(v));
  }

  lemma HeaderParsed(v: seq<byte>)
    requires IPD_TAG <= v && !IpdRefused(v) && IpdFormatLen(v) <= |v|
    ensures IsHeader(v[..IpdFormatLen(v)], IpdDataLen(v))
  {
    FieldEnds(v);
    AcceptedDigits(v);
    hide Field, Value, AllDigits, IpdRefused, IpdDataLen, IpdFormatLen;
    var h, f := v[..IpdFormatLen(v)], Field(v);
    PrefixSlice(v, |h|, 5, |h| - 1);
    PrefixSlice(v, |h|, 0, 5);
  }

  // ---- Which views are accepted -------------------------------------------------------------------

  lemma DigitsEndNoField(d: seq<byte>, v: seq<byte>, i: nat)
    requires AllDigits(d) && i + |d| <= |v| && d == v[i..i + |d|]
    ensures forall j :: i <= j < i + |d| ==> !EndsField(v[j])
  {
    assert forall j :: i <= j < i + |d| ==> v[j] == d[j - i];
  }

  lemma FieldOfHeader(v: seq<byte>, h: nat, n: nat)
    requires h <= |v| && IsHeader(v[..h], n)
    ensures IPD_TAG <= v && Field(v) == v[5..h - 1] && h == 6 + |Field(v)|
    ensures |Field(v)| <= 3 && AllDigits(Field(v)) && Value(Field(v)) == n < 1000
  {
    var d := v[..h][5..h - 1];
    ThreeDigits(d);
    hide Field, Value;
    PrefixSlice(v, h, 5, h - 1);
    PrefixSlice(v, h, 0, 5);
    DigitsEndNoField(d, v, 5);
    FieldIs(v, h - 6);
  }

  lemma FieldOfCut(v: seq<byte>)
    requires IPD_TAG <= v && CutHeader(v)
    ensures Field(v) == v[5..] && |v| == 8 && AllDigits(Field(v)) && Value(Field(v)) > 0
  {
    hide Field, Value;
    assert v[5..] == v[5..8];
    DigitsEndNoField(v[5..], v, 5);
    FieldIs(v, 3);
  }

  // A view is accepted exactly if it has eight bytes or more and begins with a whole header of a
  // frame that is not empty, or if it is cut off behind the third digit.  Any other is refused,
  // and the engine is reset.
  lemma HeaderTakenExactly(v: seq<byte>)
    requires IPD_TAG <= v
    ensures !IpdRefused(v) <==> (|v| >= 8 && WholeHeader(v)) || CutHeader(v)
  {
    if !IpdRefused(v) {
      AcceptedDigits(v);
      if IpdFormatLen(v) <= |v| {
        HeaderParsed(v);
      } else {
        FieldEnds(v);
        hide Field, Value, IsHeader;
        assert v[5..] == Field(v);
      }
    } else {
      hide IpdRefused, Field, Value, IsHeader;
      if CutHeader(v) {
        FieldOfCut(v);
        AcceptsDigits(v);
      }
      if h: nat, n: nat :| h <= |v| && n > 0 && IsHeader(v[..h], n) {
        FieldOfHeader(v, h, n);
        if |v| >= 8 {
          AcceptsDigits(v);
        }
      }
    }
  }

  // The code leaves what the language defines exactly in two cases: the number is cut off behind
  // its third digit, and then a negative number of bytes is copied; or it has eight characters or
  // more, and then it does not fit its buffer.
  lemma IpdUndefinedExactly(v: seq<byte>)
    requires IPD_TAG <= v
    ensures !IpdDefined(v) <==> CutHeader(v) || LongField(v)
  {
    LongFieldIs(v);
    if !IpdRefused(v) {
      AcceptedDigits(v);
      FieldEnds(v);
      hide Field, Value, IpdRefused, IpdDataLen;
      if IpdFormatLen(v) > |v| {
        assert v[5..] == Field(v);
      } else if CutHeader(v) {
        FieldOfCut(v);
      }
    } else if CutHeader(v) {
      hide Field, Value, IpdRefused;
      FieldOfCut(v);
      AcceptsDigits(v);
    }
  }

  // So every whole header is within the defined cases.
  lemma WholeHeaderIsDefined(v: seq<byte>, h: nat, n: nat)
    requires |v| >= 8 && h <= |v| && n > 0 && IsHeader(v[..h], n)
    ensures IPD_TAG <= v && IpdDefined(v) && !IpdRefused(v) && IpdFormatLen(v) == h && IpdDataLen(v) == n
  {
    FieldOfHeader(v, h, n);
    hide Field, Value;
    AcceptsDigits(v);
    AcceptedDigits(v);
  }
}
