/** The few pieces of `java.lang.String` and `java.lang.Integer` that the
    exercises lean on, over `seq<char>`: decimal rendering of an `int`
    (`Integer.toString`, string concatenation), decimal parsing
    (`Integer.parseInt`, `Integer.valueOf`), two-digit zero padding
    (`String.format("%02d", …)`) and splitting on a one-character separator
    (`String.split`). Only ASCII digits are modelled. */
module JavaText {
  import opened Util

  predicate IsDigit(c: char) {
    '0' as int <= c as int <= '9' as int
  }

  function DigitChar(d: nat): (c: char)
    requires d < 10
    ensures IsDigit(c)
  {
    "0123456789"[d]
  }

  function DigitValue(c: char): (d: nat)
    requires IsDigit(c)
    ensures d < 10
  {
    (c as int) - ('0' as int)
  }

  lemma DigitRoundTrip(d: nat)
    requires d < 10
    ensures DigitValue(DigitChar(d)) == d
  {
  }

  predicate AllDigits(s: string) {
    forall i :: 0 <= i < |s| ==> IsDigit(s[i])
  }

  /** Decimal digits of a natural number, most significant first, with no
      leading zero. */
  function NatToString(n: nat): (s: string)
    ensures |s| >= 1 && AllDigits(s)
    ensures n < 10 <==> |s| == 1
    decreases n
  {
    if n < 10 then [DigitChar(n)] else NatToString(n / 10) + [DigitChar(n % 10)]
  }

  /** Value of a string of decimal digits. */
  function DigitsValue(s: string): (v: nat)
    requires AllDigits(s)
    decreases |s|
  {
    if s == [] then 0 else DigitsValue(s[..|s| - 1]) * 10 + DigitValue(s[|s| - 1])
  }

  lemma {:induction false} DigitsValueOfNatToString(n: nat)
    ensures DigitsValue(NatToString(n)) == n
    decreases n
  {
    var s := NatToString(n);
    if n < 10 {
      DigitRoundTrip(n);
    } else {
      assert s[..|s| - 1] == NatToString(n / 10);
      DigitsValueOfNatToString(n / 10);
      DigitRoundTrip(n % 10);
    }
  }

  /** `Integer.toString(n)`, which is also what `"" + n` produces. */
  function IntToString(n: int): (s: string)
    ensures |s| >= 1
    ensures n >= 0 ==> AllDigits(s)
    ensures n < 0 ==> s[0] == '-' && AllDigits(s[1..])
  {
    if n < 0 then "-" + NatToString(-n) else NatToString(n)
  }

  /** `Integer.parseInt(s)` / `Integer.valueOf(s)`: an optional sign and at
      least one digit, whose value fits in 32 bits; anything else is a
      `NumberFormatException`, here `None`. */
  function ParseInt(s: string): (r: Option<int>)
    ensures r.Some? ==> IsInt32(r.value)
  {
    if |s| >= 1 && (s[0] == '-' || s[0] == '+') then
      var body := s[1..];
      if body != [] && AllDigits(body) then
        var v: int := if s[0] == '-' then -(DigitsValue(body) as int) else DigitsValue(body);
        if IsInt32(v) then Some(v) else None
      else None
    else if s != [] && AllDigits(s) then
      var v := DigitsValue(s);
      if IsInt32(v) then Some(v) else None
    else None
  }

  /** Rendering an `int` and parsing it back gives the same `int`. */
  lemma ParseIntToString(n: int)
    requires IsInt32(n)
    ensures ParseInt(IntToString(n)) == Some(n)
  {
    if n < 0 {
      NegativeRoundTrip(n);
    } else {
      var s := NatToString(n);
      DigitsValueOfNatToString(n);
      assert IsDigit(s[0]);
    }
  }

  lemma NegativeRoundTrip(n: int)
    requires IsInt32(n) && n < 0
    ensures ParseInt(IntToString(n)) == Some(n)
  {
    var body := NatToString(-n);
    DigitsValueOfNatToString(-n);
    ParseMinus(body);
    assert IntToString(n) == "-" + body;
  }

  lemma ParseMinus(body: string)
    requires body != [] && AllDigits(body) && IsInt32(-(DigitsValue(body) as int))
    ensures ParseInt("-" + body) == Some(-(DigitsValue(body) as int))
  {
    var s := "-" + body;
    assert s[0] == '-' && s[1..] == body;
  }

  /** `String.format("%02d", n)` for a non-negative `n`. */
  function Pad2(n: nat): (s: string)
    ensures |s| >= 2 && AllDigits(s)
    ensures n < 100 ==> |s| == 2 && DigitsValue(s) == n
  {
    if n < 10 then
      var s := "0" + NatToString(n);
      DigitRoundTrip(n);
      assert s[..1] == "0" && DigitsValue(s[..1]) == 0;
      assert s[1] == DigitChar(n);
      s
    else
      assert n < 100 ==> NatToString(n) == NatToString(n / 10) + [DigitChar(n % 10)];
      DigitsValueOfNatToString(n);
      NatToString(n)
  }

  /** The pieces of `s` between occurrences of `sep`, keeping empty ones. */
  function Pieces(s: string, sep: char): (r: seq<string>)
    ensures |r| >= 1
    ensures forall k :: 0 <= k < |r| ==> sep !in r[k]
    decreases |s|
  {
    if s == [] then [""]
    else
      var rest := Pieces(s[1..], sep);
      if s[0] == sep then [""] + rest
      else [[s[0]] + rest[0]] + rest[1..]
  }

  function DropTrailingEmpty(r: seq<string>): (t: seq<string>)
    ensures |t| <= |r| && t == r[..|t|]
    ensures t != [] ==> t[|t| - 1] != ""
    ensures forall k :: |t| <= k < |r| ==> r[k] == ""
  {
    if r == [] then []
    else if r[|r| - 1] == "" then DropTrailingEmpty(r[..|r| - 1])
    else r
  }

  /** `s.split(sep)` for a separator that is not a regular-expression
      metacharacter: if `sep` does not occur, the whole string; otherwise the
      pieces with trailing empty strings removed. */
  function Split(s: string, sep: char): (r: seq<string>)
    ensures forall k :: 0 <= k < |r| ==> sep !in r[k]
    ensures sep !in s ==> r == [s]
  {
    if sep !in s then [s] else DropTrailingEmpty(Pieces(s, sep))
  }

  /** Joining the pieces with the separator gives the string back. */
  function Join(r: seq<string>, sep: char): string
    requires |r| >= 1
  {
    if |r| == 1 then r[0] else r[0] + [sep] + Join(r[1..], sep)
  }

  lemma {:induction false} JoinPieces(s: string, sep: char)
    ensures Join(Pieces(s, sep), sep) == s
    decreases |s|
  {
    if s != [] {
      var rest := Pieces(s[1..], sep);
      JoinPieces(s[1..], sep);
      if s[0] == sep {
        assert Pieces(s, sep)[1..] == rest;
        assert s == [s[0]] + s[1..];
      } else {
        var r := Pieces(s, sep);
        if |rest| == 1 {
          assert s == [s[0]] + s[1..];
        } else {
          assert r[1..] == rest[1..];
          assert Join(rest, sep) == rest[0] + [sep] + Join(rest[1..], sep);
          assert s == [s[0]] + s[1..];
        }
      }
    }
  }

  /** Joining a list of separator-free pieces and splitting it again gives
      back every piece, the empty ones included. */
  lemma {:induction false} PiecesOfJoin(r: seq<string>, sep: char)
    requires |r| >= 1
    requires forall k :: 0 <= k < |r| ==> sep !in r[k]
    ensures Pieces(Join(r, sep), sep) == r
    decreases |r|, |r[0]|
  {
    if |r| == 1 {
      PiecesNoSep(r[0], sep);
    } else if r[0] == [] {
      PiecesOfJoin(r[1..], sep);
      PiecesAfterSep(Join(r[1..], sep), sep);
    } else {
      var c := r[0][0];
      var r' := [r[0][1..]] + r[1..];
      assert c in r[0];
      assert forall k :: 0 <= k < |r'| ==> sep !in r'[k] by {
        assert r[0] == [c] + r[0][1..];
      }
      PiecesOfJoin(r', sep);
      JoinFirstChar(r, sep);
      PiecesAfterChar(c, Join(r', sep), sep);
      assert r'[1..] == r[1..];
      assert [c] + r[0][1..] == r[0];
    }
  }

  lemma PiecesAfterSep(s: string, sep: char)
    ensures Pieces([sep] + s, sep) == [""] + Pieces(s, sep)
  {
    assert ([sep] + s)[1..] == s;
  }

  lemma PiecesAfterChar(c: char, s: string, sep: char)
    requires c != sep
    ensures Pieces([c] + s, sep) == [[c] + Pieces(s, sep)[0]] + Pieces(s, sep)[1..]
  {
    assert ([c] + s)[1..] == s;
  }

  lemma JoinFirstChar(r: seq<string>, sep: char)
    requires |r| >= 2 && r[0] != []
    ensures Join(r, sep) == [r[0][0]] + Join([r[0][1..]] + r[1..], sep)
  {
    var r' := [r[0][1..]] + r[1..];
    assert r'[1..] == r[1..];
    assert r[0] == [r[0][0]] + r[0][1..];
  }

  lemma {:induction false} PiecesNoSep(s: string, sep: char)
    requires sep !in s
    ensures Pieces(s, sep) == [s]
    decreases |s|
  {
    if s != [] {
      PiecesNoSep(s[1..], sep);
      assert [s[0]] + s[1..] == s;
    }
  }

  /** Splitting pieces joined by the separator gives them back, when none
      holds the separator, there are at least two and the last is not
      empty. */
  lemma SplitJoin(r: seq<string>, sep: char)
    requires |r| >= 2 && r[|r| - 1] != ""
    requires forall k :: 0 <= k < |r| ==> sep !in r[k]
    ensures Split(Join(r, sep), sep) == r
  {
    var s := Join(r, sep);
    assert s == r[0] + [sep] + Join(r[1..], sep);
    assert s[|r[0]|] == sep;
    PiecesOfJoin(r, sep);
  }

  /** The rendering of an `int` holds only digits and a minus sign. */
  lemma IntToStringChars(n: int, c: char)
    requires !IsDigit(c) && c != '-'
    ensures c !in IntToString(n)
  {
    var s := IntToString(n);
    forall k | 0 <= k < |s|
      ensures s[k] != c
    {
      if n < 0 && k > 0 {
        assert s[k] == s[1..][k - 1];
      }
    }
  }
}
