/**
  The row labels of the score table: one "train : eval" text per rung of
  the ladder, and the marker appended to the label of the chosen rung.

  The percentages are Java doubles holding whole numbers, so their text is
  the decimal digits followed by ".0" (as `String.valueOf(double)` writes
  any whole number below ten million).
 */
module Labels {
  import opened Ladder

  /** Suffix that flags the best rung. */
  const Marker: string := "  *** -->"

  function DigitChar(d: nat): (c: char)
    requires d < 10
    ensures '0' <= c <= '9'
    ensures c as int == '0' as int + d
  {
    ('0' as int + d) as char
  }

  function DigitValue(c: char): (d: nat)
    requires '0' <= c <= '9'
    ensures d < 10
  {
    c as int - '0' as int
  }

  /** Decimal digits of `n`, most significant first, without leading zeros. */
  function Decimal(n: nat): (s: string)
    ensures 1 <= |s|
    ensures forall i :: 0 <= i < |s| ==> '0' <= s[i] <= '9'
    ensures s[0] == '0' ==> n == 0
    ensures 1 < |s| ==> s[0] != '0'
    ensures n < 10 <==> |s| == 1
    ensures 10 <= n < 100 <==> |s| == 2
    decreases n
  {
    if n < 10 then [DigitChar(n)] else Decimal(n / 10) + [DigitChar(n % 10)]
  }

  /** Value of a string of decimal digits: the inverse of `Decimal`. */
  function DecimalValue(s: string): nat
    requires forall i :: 0 <= i < |s| ==> '0' <= s[i] <= '9'
  {
    if |s| == 0 then 0
    else DecimalValue(s[..|s| - 1]) * 10 + DigitValue(s[|s| - 1])
  }

  /** Reading the digits back gives the number that was written. */
  lemma {:induction false} DecimalRoundTrip(n: nat)
    ensures DecimalValue(Decimal(n)) == n
    decreases n
  {
    if n >= 10 {
      var s := Decimal(n);
      DecimalRoundTrip(n / 10);
      assert s[..|s| - 1] == Decimal(n / 10);
    }
  }

  /** A digit string is worth at least its leading digit. */
  lemma {:induction false} LeadingDigitBound(s: string)
    requires 1 <= |s|
    requires forall i :: 0 <= i < |s| ==> '0' <= s[i] <= '9'
    ensures DigitValue(s[0]) <= DecimalValue(s)
    decreases |s|
  {
    if 1 < |s| {
      LeadingDigitBound(s[..|s| - 1]);
    }
  }

  /** `Decimal` is the only way to write a number in decimal digits without
      a leading zero. */
  lemma {:induction false} DecimalUnique(s: string)
    requires 1 <= |s|
    requires forall i :: 0 <= i < |s| ==> '0' <= s[i] <= '9'
    requires 1 < |s| ==> s[0] != '0'
    ensures s == Decimal(DecimalValue(s))
    decreases |s|
  {
    var n := DecimalValue(s);
    if 1 < |s| {
      var p := s[..|s| - 1];
      DecimalUnique(p);
      LeadingDigitBound(p);
      assert n / 10 == DecimalValue(p) && n % 10 == DigitValue(s[|s| - 1]);
      assert s == p + [s[|s| - 1]];
    }
  }

  /** Text of a whole-numbered double: its digits, which read back as the
      number and have no leading zero, then ".0". */
  function DoubleText(n: nat): (s: string)
    ensures 3 <= |s| && s[|s| - 2..] == ".0"
    ensures forall i :: 0 <= i < |s| - 2 ==> '0' <= s[i] <= '9'
    ensures s[0] == '0' ==> n == 0
    ensures 3 < |s| ==> s[0] != '0'
    ensures DecimalValue(s[..|s| - 2]) == n
  {
    DecimalRoundTrip(n);
    var s := Decimal(n) + ".0";
    assert s[..|s| - 2] == Decimal(n);
    s
  }

  /** The facts `DoubleText` ensures single out its text: any digits
      without a leading zero, followed by ".0", are the text of their
      value. */
  lemma DoubleTextUnique(t: string)
    requires 3 <= |t| && t[|t| - 2..] == ".0"
    requires forall i :: 0 <= i < |t| - 2 ==> '0' <= t[i] <= '9'
    requires 3 < |t| ==> t[0] != '0'
    ensures t == DoubleText(DecimalValue(t[..|t| - 2]))
  {
    DecimalUnique(t[..|t| - 2]);
    assert t == t[..|t| - 2] + t[|t| - 2..];
  }

  /** The label of one rung, before marking: the training text, then
      " : ", then the evaluation text. */
  function Header(r: Ratio): (h: string)
    ensures |DoubleText(r.train)| + 3 + |DoubleText(r.eval)| == |h|
    ensures h[..|DoubleText(r.train)|] == DoubleText(r.train)
    ensures h[|DoubleText(r.train)|..|DoubleText(r.train)| + 3] == " : "
    ensures h[|h| - |DoubleText(r.eval)|..] == DoubleText(r.eval)
  {
    DoubleText(r.train) + " : " + DoubleText(r.eval)
  }

  /** The labels of a ladder, in order. */
  function Headers(rs: seq<Ratio>): (hs: seq<string>)
    ensures |hs| == |rs|
    ensures forall i :: 0 <= i < |rs| ==> hs[i] == Header(rs[i])
  {
    seq(|rs|, i requires 0 <= i < |rs| => Header(rs[i]))
  }

  predicate EndsWithMarker(s: string) {
    |Marker| <= |s| && s[|s| - |Marker|..] == Marker
  }

  /** Appends the marker to the label at `k`; the other labels stay as
      they were. */
  function Mark(hs: seq<string>, k: nat): (r: seq<string>)
    requires k < |hs|
    ensures |r| == |hs|
    ensures |r[k]| == |hs[k]| + |Marker|
    ensures EndsWithMarker(r[k]) && r[k][..|hs[k]|] == hs[k]
    ensures forall j :: 0 <= j < |hs| && j != k ==> r[j] == hs[j]
  {
    hs[k := hs[k] + Marker]
  }

  /** An unmarked label ends in the '0' of its evaluation percentage, so it
      never carries the marker. */
  lemma HeaderUnmarked(r: Ratio)
    ensures !EndsWithMarker(Header(r))
  {
    var h := Header(r);
    assert h[|h| - 1] == '0';
    assert Marker[|Marker| - 1] == '>';
  }

  /** After marking the labels of a ladder at `k`, the label at `k` and no
      other carries the marker; every other label is its plain text, and
      the marked label is its plain text followed by the marker. */
  lemma MarkedExactlyOne(rs: seq<Ratio>, k: nat)
    requires k < |rs|
    ensures var m := Mark(Headers(rs), k);
      && |m| == |rs|
      && (forall j :: 0 <= j < |m| ==> (EndsWithMarker(m[j]) <==> j == k))
      && (forall j :: 0 <= j < |m| && j != k ==> m[j] == Header(rs[j]))
      && m[k] == Header(rs[k]) + Marker
  {
    var m := Mark(Headers(rs), k);
    forall j | 0 <= j < |m| && j != k
      ensures !EndsWithMarker(m[j])
    {
      HeaderUnmarked(rs[j]);
    }
  }

  /** A label of the ladder starts with the two digits of its training
      percentage. */
  lemma HeaderStartsWithTrain(r: Ratio)
    requires 10 <= r.train < 100
    ensures |Header(r)| >= 2
    ensures forall i :: 0 <= i < 2 ==> '0' <= Header(r)[i] <= '9'
    ensures DecimalValue(Header(r)[..2]) == r.train
  {
    DecimalRoundTrip(r.train);
    assert Header(r)[..2] == Decimal(r.train);
  }

  /** No two rungs of the ladder share a label, so the marked label names
      one rung. */
  lemma HeadersDistinct()
    ensures forall i, j :: 0 <= i < j < |Ratios| ==> Header(Ratios[i]) != Header(Ratios[j])
  {
    RatiosShape();
    forall i, j | 0 <= i < j < |Ratios|
      ensures Header(Ratios[i]) != Header(Ratios[j])
    {
      HeaderStartsWithTrain(Ratios[i]);
      HeaderStartsWithTrain(Ratios[j]);
    }
  }
}
