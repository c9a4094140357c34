/** Decimal numbers and comma-separated lists as text, as `find_copyrights.py` writes and
    reads them. */
module YearText {
  import opened Collections

  // ----- Digits -----

  predicate IsDigit(c: char) { '0' <= c <= '9' }

  predicate AllDigits(s: string) { forall i :: 0 <= i < |s| ==> IsDigit(s[i]) }

  function DigitOf(d: nat): (c: char)
    requires d < 10
    ensures IsDigit(c)
  {
    ('0' as int + d) as char
  }

  function Digits(n: nat): (s: string)
    ensures s != [] && AllDigits(s)
  {
    if n < 10 then [DigitOf(n)] else Digits(n / 10) + [DigitOf(n % 10)]
  }

  /** What `%d` prints. */
  function Show(n: int): string { if n < 0 then "-" + Digits(-n) else Digits(n) }

  function Value(s: string): nat
    requires AllDigits(s)
  {
    if s == [] then 0 else 10 * Value(s[..|s| - 1]) + (s[|s| - 1] as int - '0' as int)
  }

  lemma {:induction false} ValueOfDigits(n: nat)
    ensures Value(Digits(n)) == n
  {
    if n >= 10 {
      ValueOfDigits(n / 10);
      assert Digits(n)[..|Digits(n)| - 1] == Digits(n / 10);
    } else {
      assert Digits(n)[..0] == [];
    }
  }

  function Exp10(k: nat): (r: nat)
    ensures r >= 1
  {
    if k == 0 then 1 else 10 * Exp10(k - 1)
  }

  lemma {:induction false} ValueBound(s: string)
    requires AllDigits(s)
    ensures Value(s) < Exp10(|s|)
    decreases |s|
  {
    if s != [] { ValueBound(s[..|s| - 1]); }
  }

  /** Numbers of up to three, exactly four, and more digits. */
  lemma DigitsLength(n: nat)
    ensures |Digits(n)| < 4 <==> n < 1000
    ensures |Digits(n)| == 4 <==> 1000 <= n <= 9999
  {
    if n >= 10 {
      var a := n / 10;
      assert |Digits(n)| == 1 + |Digits(a)|;
      if a >= 10 {
        var b := a / 10;
        assert |Digits(a)| == 1 + |Digits(b)|;
        if b >= 10 {
          var c := b / 10;
          assert |Digits(b)| == 1 + |Digits(c)|;
          if c >= 10 { assert |Digits(c)| == 1 + |Digits(c / 10)|; }
        }
      }
    }
  }

  // ----- Lists -----

  function Join(pieces: seq<string>): string {
    if pieces == [] then "" else if |pieces| == 1 then pieces[0] else pieces[0] + "," + Join(pieces[1..])
  }

  function Split(s: string): (r: seq<string>)
    ensures r != []
  {
    if s == [] then [""]
    else
      var rest := Split(s[1..]);
      if s[0] == ',' then [""] + rest else [[s[0]] + rest[0]] + rest[1..]
  }

  lemma {:induction false} SplitPlain(s: string)
    requires ',' !in s
    ensures Split(s) == [s]
    decreases |s|
  {
    if s != [] {
      SplitPlain(s[1..]);
      assert s == [s[0]] + s[1..];
    }
  }

  lemma {:induction false} SplitFirst(s: string, t: string)
    requires ',' !in s
    ensures Split(s + "," + t) == [s] + Split(t)
    decreases |s|
  {
    var all := s + "," + t;
    if s == [] {
      assert all[1..] == t;
    } else {
      SplitFirst(s[1..], t);
      assert all[1..] == s[1..] + "," + t;
      assert s == [s[0]] + s[1..];
    }
  }

  lemma {:induction false} SplitJoin(pieces: seq<string>)
    requires pieces != [] && forall i :: 0 <= i < |pieces| ==> ',' !in pieces[i]
    ensures Split(Join(pieces)) == pieces
    decreases |pieces|
  {
    if |pieces| == 1 {
      SplitPlain(pieces[0]);
    } else {
      SplitJoin(pieces[1..]);
      SplitFirst(pieces[0], Join(pieces[1..]));
    }
  }

  // ----- Reading one entry -----

  predicate IsSpace(c: char) { c == ' ' || '\t' <= c <= '\r' }

  function SkipSpaces(s: string): string {
    if s != [] && IsSpace(s[0]) then SkipSpaces(s[1..]) else s
  }

  function DropSpaces(s: string): string {
    if s != [] && IsSpace(s[|s| - 1]) then DropSpaces(s[..|s| - 1]) else s
  }

  function Strip(s: string): string { DropSpaces(SkipSpaces(s)) }

  /** Match four digits, a dash and four digits at the start of the entry; what follows is
      not looked at. */
  function MatchRange(s: string): Option<(nat, nat)> {
    if |s| < 4 || !AllDigits(s[..4]) then None
    else
      var dash := SkipSpaces(s[4..]);
      if dash == [] || dash[0] != '-' then None
      else
        var last := SkipSpaces(dash[1..]);
        if |last| < 4 || !AllDigits(last[..4]) then None else Some((Value(s[..4]), Value(last[..4])))
  }

  /** What `int` accepts: an optional sign and digits. */
  function ParseInt(s: string): Option<int> {
    if s == [] then None
    else if s[0] == '-' || s[0] == '+' then
      if |s| == 1 || !AllDigits(s[1..]) then None
      else var v: int := Value(s[1..]); Some(if s[0] == '-' then -v else v)
    else if AllDigits(s) then Some(Value(s)) else None
  }

  /** The years first..last. */
  function Span(first: int, last: int): (r: set<int>)
    ensures forall y :: y in r <==> first <= y <= last
    decreases last - first
  {
    if first > last then {} else Span(first, last - 1) + {last}
  }

  /** The years one entry stands for. */
  function Years(s: string): set<int> {
    match MatchRange(s)
    case Some((first, last)) => Span(first, last)
    case None =>
      match ParseInt(s)
      case Some(y) => {y}
      case None => {}
  }

  function ProcessPieces(pieces: seq<string>): set<int> {
    if pieces == [] then {} else ProcessPieces(pieces[..|pieces| - 1]) + Years(Strip(pieces[|pieces| - 1]))
  }

  // ----- What a year is -----

  const DIGITS := "0123456789"
  const BLANKS := " \t\n\U{0B}\U{0C}\r"

  /** The four decimal digits of `n`. */
  ghost predicate IsYear(s: string, n: int) {
    && |s| == 4 && 0 <= n <= 9999
    && s[0] == DIGITS[n / 1000] && s[1] == DIGITS[n / 100 % 10] && s[2] == DIGITS[n / 10 % 10] && s[3] == DIGITS[n % 10]
  }

  lemma DigitIff(c: char, d: int)
    ensures 0 <= d < 10 && c == DIGITS[d] <==> IsDigit(c) && c as int - '0' as int == d
  {
    assert |DIGITS| == 10;
    if 0 <= d < 10 { assert DIGITS[d] as int == '0' as int + d; }
  }

  lemma OnePlace(m: int, d: int, n: int)
    requires 0 <= d < 10
    ensures n == 10 * m + d <==> m == n / 10 && d == n % 10
  {
  }

  lemma Hundreds(n: nat)
    ensures n / 100 == n / 10 / 10 && n / 1000 == n / 10 / 10 / 10
  {
  }

  lemma FourPlaces(a: int, b: int, c: int, d: int, n: int)
    requires 0 <= a < 10 && 0 <= b < 10 && 0 <= c < 10 && 0 <= d < 10
    ensures n == 1000 * a + 100 * b + 10 * c + d <==>
            0 <= n <= 9999 && a == n / 1000 && b == n / 100 % 10 && c == n / 10 % 10 && d == n % 10
  {
    var k := 10 * a + b;
    var m := 10 * k + c;
    OnePlace(m, d, n);
    OnePlace(k, c, n / 10);
    OnePlace(a, b, n / 10 / 10);
    if n >= 0 { Hundreds(n); }
  }

  lemma FourValues(s: string)
    requires |s| == 4 && AllDigits(s)
    ensures Value(s) == 1000 * (s[0] as int - '0' as int) + 100 * (s[1] as int - '0' as int) +
                        10 * (s[2] as int - '0' as int) + (s[3] as int - '0' as int)
  {
    assert s[..3][..2] == s[..2] && s[..2][..1] == s[..1] && s[..1][..0] == [];
    assert Value(s[..1]) == s[0] as int - '0' as int;
    assert Value(s[..2]) == 10 * Value(s[..1]) + (s[1] as int - '0' as int);
    assert Value(s[..3]) == 10 * Value(s[..2]) + (s[2] as int - '0' as int);
  }

  lemma IsYearIff(s: string, n: int)
    requires |s| == 4
    ensures IsYear(s, n) <==> AllDigits(s) && Value(s) == n
  {
    hide Value;
    if 0 <= n <= 9999 {
      DigitIff(s[0], n / 1000);
      DigitIff(s[1], n / 100 % 10);
      DigitIff(s[2], n / 10 % 10);
      DigitIff(s[3], n % 10);
    }
    if AllDigits(s) {
      FourValues(s);
      FourPlaces(s[0] as int - '0' as int, s[1] as int - '0' as int, s[2] as int - '0' as int,
                 s[3] as int - '0' as int, n);
    }
    if IsYear(s, n) { assert AllDigits(s); }
  }

  // ----- What a number is -----

  function Zeros(k: nat): string { seq(k, _ => '0') }

  lemma {:induction false} LeadingZeros(k: nat, s: string)
    requires AllDigits(s)
    ensures AllDigits(Zeros(k) + s) && Value(Zeros(k) + s) == Value(s)
    decreases |s|, k
  {
    var all := Zeros(k) + s;
    if s != [] {
      assert all[..|all| - 1] == Zeros(k) + s[..|s| - 1];
      LeadingZeros(k, s[..|s| - 1]);
    } else if k > 0 {
      assert all == Zeros(k) && Zeros(k)[..k - 1] == Zeros(k - 1) + [];
      LeadingZeros(k - 1, []);
    }
  }

  lemma DigitsMore(v: nat, d: nat)
    requires d < 10
    ensures Digits(10 * v + d) == if v == 0 then [DigitOf(d)] else Digits(v) + [DigitOf(d)]
  {
    assert (10 * v + d) / 10 == v && (10 * v + d) % 10 == d;
  }

  lemma OneZeroMore(k: nat, c: char)
    ensures Zeros(k) + "0" + [c] == Zeros(k + 1) + [c]
  {
  }

  lemma DigitBack(c: char)
    requires IsDigit(c)
    ensures 0 <= c as int - '0' as int < 10 && DigitOf(c as int - '0' as int) == c
  {
  }

  lemma LastValue(s: string)
    requires s != [] && AllDigits(s)
    ensures Value(s) == 10 * Value(s[..|s| - 1]) + (s[|s| - 1] as int - '0' as int)
  {
  }

  lemma LastDigit(v: nat, c: char)
    requires IsDigit(c)
    ensures Digits(10 * v + (c as int - '0' as int)) == if v == 0 then [c] else Digits(v) + [c]
  {
    hide Digits, DigitOf;
    DigitBack(c);
    DigitsMore(v, c as int - '0' as int);
  }

  lemma {:induction false} WithoutZeros(s: string) returns (k: nat)
    requires s != [] && AllDigits(s)
    ensures s == Zeros(k) + Digits(Value(s))
    decreases |s|
  {
    var init, c := s[..|s| - 1], s[|s| - 1];
    assert s == init + [c];
    assert init == [] ==> Value(init) == 0;
    hide Digits, Zeros, Value;
    LastValue(s);
    LastDigit(Value(init), c);
    if init == [] {
      k := 0;
      NoZeros([c]);
    } else {
      var j := WithoutZeros(init);
      if Value(init) == 0 {
        DigitsOfZero();
        OneZeroMore(j, c);
        k := j + 1;
      } else {
        k := j;
        assert Zeros(j) + Digits(Value(init)) + [c] == Zeros(j) + (Digits(Value(init)) + [c]);
      }
    }
  }

  lemma DigitsOfZero()
    ensures Digits(0) == "0"
  {
  }

  lemma NoZeros(s: string)
    ensures Zeros(0) + s == s
  {
  }

  /** Some digits, without a sign, that stand for `n`. */
  ghost predicate IsNumeral(s: string, n: nat) { exists k :: s == Zeros(k) + Digits(n) }

  lemma IsNumeralIff(s: string, n: nat)
    ensures IsNumeral(s, n) <==> s != [] && AllDigits(s) && Value(s) == n
  {
    if IsNumeral(s, n) {
      var k :| s == Zeros(k) + Digits(n);
      LeadingZeros(k, Digits(n));
      ValueOfDigits(n);
    }
    if s != [] && AllDigits(s) && Value(s) == n { var k := WithoutZeros(s); }
  }

  ghost predicate IsNumber(s: string, y: int) {
    || (y >= 0 && IsNumeral(s, y))
    || (y >= 0 && s != [] && s[0] == '+' && IsNumeral(s[1..], y))
    || (y <= 0 && s != [] && s[0] == '-' && IsNumeral(s[1..], -y))
  }

  lemma ParseIntIff(s: string, y: int)
    ensures ParseInt(s) == Some(y) <==> IsNumber(s, y)
  {
    hide IsNumeral, Value;
    var n := if y >= 0 then y else -y;
    IsNumeralIff(s, n);
    if s != [] { IsNumeralIff(s[1..], n); }
  }

  lemma NotANumber(s: string, i: nat)
    requires 0 < i < |s| && s[i] == '-'
    ensures ParseInt(s).None?
  {
    assert !IsDigit(s[i]) && s[1..][i - 1] == s[i];
  }

  // ----- What blanks do -----

  ghost predicate Blank(s: string) { forall c :: c in s ==> c in BLANKS }

  ghost predicate Trimmed(s: string) { s != [] ==> s[0] !in BLANKS && s[|s| - 1] !in BLANKS }

  lemma IsSpaceIff(c: char)
    ensures IsSpace(c) <==> c in BLANKS
  {
    assert BLANKS[0] == ' ' && BLANKS[1] == '\t' && BLANKS[2] == '\n' && BLANKS[3] as int == 11;
    assert BLANKS[4] as int == 12 && BLANKS[5] == '\r';
    if IsSpace(c) { assert c as int == 32 || 9 <= c as int <= 13; }
  }

  lemma {:induction false} SkipBlank(u: string, s: string)
    requires Blank(u) && (s != [] ==> s[0] !in BLANKS)
    ensures SkipSpaces(u + s) == s
    decreases |u|
  {
    if u == [] {
      assert u + s == s;
      if s != [] { IsSpaceIff(s[0]); }
    } else {
      assert u[0] in u;
      IsSpaceIff(u[0]);
      assert (u + s)[1..] == u[1..] + s;
      SkipBlank(u[1..], s);
    }
  }

  lemma {:induction false} DropBlank(s: string, v: string)
    requires Blank(v) && (s != [] ==> s[|s| - 1] !in BLANKS)
    ensures DropSpaces(s + v) == s
    decreases |v|
  {
    if v == [] {
      assert s + v == s;
      if s != [] { IsSpaceIff(s[|s| - 1]); }
    } else {
      var n := |v| - 1;
      assert v[n] in v;
      IsSpaceIff(v[n]);
      assert (s + v)[..|s| + n] == s + v[..n];
      DropBlank(s, v[..n]);
    }
  }

  lemma {:induction false} Skipped(s: string) returns (u: string)
    ensures Blank(u) && s == u + SkipSpaces(s)
    ensures SkipSpaces(s) != [] ==> SkipSpaces(s)[0] !in BLANKS
    decreases |s|
  {
    u := [];
    if s != [] {
      IsSpaceIff(s[0]);
      if IsSpace(s[0]) {
        var w := Skipped(s[1..]);
        u := [s[0]] + w;
      }
    }
  }

  lemma {:induction false} Dropped(s: string) returns (v: string)
    ensures Blank(v) && s == DropSpaces(s) + v
    ensures DropSpaces(s) != [] ==> DropSpaces(s)[|DropSpaces(s)| - 1] !in BLANKS
    decreases |s|
  {
    v := [];
    if s != [] {
      var n := |s| - 1;
      IsSpaceIff(s[n]);
      if IsSpace(s[n]) {
        var w := Dropped(s[..n]);
        v := w + [s[n]];
      }
    }
  }

  /** `p` is the entry `e` between blanks. */
  ghost predicate Padded(p: string, u: string, e: string, v: string) {
    p == u + e + v && Blank(u) && Blank(v) && Trimmed(e)
  }

  lemma StripPadded(p: string, u: string, e: string, v: string)
    requires Padded(p, u, e, v)
    ensures Strip(p) == e
  {
    assert p == u + (e + v);
    if e == [] {
      assert p == u + v == p + [];
      SkipBlank(p, []);
    } else {
      SkipBlank(u, e + v);
      DropBlank(e, v);
    }
  }

  lemma StripIff(p: string, e: string)
    ensures Strip(p) == e <==> exists u, v :: Padded(p, u, e, v)
  {
    if Strip(p) == e {
      var u := Skipped(p);
      var v := Dropped(SkipSpaces(p));
      assert p == u + (e + v) == u + e + v;
      assert Padded(p, u, e, v);
    }
    if u, v :| Padded(p, u, e, v) { StripPadded(p, u, e, v); }
  }

  // ----- What an entry means -----

  /** A year, a dash and a year, with blanks around the dash, and anything behind. */
  ghost predicate RangeParts(e: string, f: int, l: int, a: string, u: string, v: string, b: string, rest: string) {
    e == a + u + "-" + v + b + rest && IsYear(a, f) && Blank(u) && Blank(v) && IsYear(b, l)
  }

  ghost predicate IsRange(e: string, f: int, l: int) {
    exists a, u, v, b, rest :: RangeParts(e, f, l, a, u, v, b, rest)
  }

  lemma RangeMatches(e: string, f: int, l: int, a: string, u: string, v: string, b: string, rest: string)
    requires RangeParts(e, f, l, a, u, v, b, rest)
    ensures f >= 0 && l >= 0 && MatchRange(e) == Some((f, l))
  {
    IsYearIff(a, f);
    IsYearIff(b, l);
    hide IsYear, Value;
    var behind := "-" + v + b + rest;
    assert e[..4] == a && e[4..] == u + behind;
    SkipBlank(u, behind);
    assert behind[1..] == v + (b + rest);
    assert IsDigit((b + rest)[0]);
    IsSpaceIff((b + rest)[0]);
    SkipBlank(v, b + rest);
    assert (b + rest)[..4] == b;
  }

  lemma PartsJoin(e: string, a: string, u: string, dash: string, v: string, last: string, b: string, rest: string)
    requires e == a + (u + dash) && dash == "-" + (v + last) && last == b + rest
    ensures e == a + u + "-" + v + b + rest
  {
  }

  lemma MatchHasParts(e: string)
    requires MatchRange(e).Some?
    ensures var (f, l) := MatchRange(e).value; IsRange(e, f, l)
  {
    var a, dash := e[..4], SkipSpaces(e[4..]);
    var u := Skipped(e[4..]);
    var last := SkipSpaces(dash[1..]);
    var v := Skipped(dash[1..]);
    var b, rest := last[..4], last[4..];
    hide Value;
    IsYearIff(a, Value(a));
    IsYearIff(b, Value(b));
    hide IsYear, Blank, SkipSpaces;
    assert dash == "-" + dash[1..];
    PartsJoin(e, a, u, dash, v, last, b, rest);
    assert RangeParts(e, Value(a), Value(b), a, u, v, b, rest);
  }

  lemma MatchRangeIff(e: string, f: nat, l: nat)
    ensures MatchRange(e) == Some((f, l)) <==> IsRange(e, f, l)
  {
    hide MatchRange, RangeParts;
    if MatchRange(e) == Some((f, l)) { MatchHasParts(e); }
    if IsRange(e, f, l) {
      var a, u, v, b, rest :| RangeParts(e, f, l, a, u, v, b, rest);
      RangeMatches(e, f, l, a, u, v, b, rest);
    }
  }

  /** The years an entry stands for: those of a range, or the number it is. */
  ghost predicate StandsFor(e: string, y: int) {
    (exists f, l :: IsRange(e, f, l) && f <= y <= l) || IsNumber(e, y)
  }

  lemma RangeIsNoNumber(e: string, f: int, l: int, y: int)
    requires IsRange(e, f, l)
    ensures !IsNumber(e, y)
  {
    var a, u, v, b, rest :| RangeParts(e, f, l, a, u, v, b, rest);
    NotANumber(e, |a + u|);
    ParseIntIff(e, y);
  }

  lemma RangeIsYears(e: string, f: int, l: int)
    requires IsRange(e, f, l)
    ensures f >= 0 && l >= 0 && MatchRange(e) == Some((f, l))
  {
    hide MatchRange, RangeParts;
    var a, u, v, b, rest :| RangeParts(e, f, l, a, u, v, b, rest);
    RangeMatches(e, f, l, a, u, v, b, rest);
  }

  lemma YearsIff(e: string, y: int)
    ensures y in Years(e) <==> StandsFor(e, y)
  {
    hide MatchRange, ParseInt, IsRange, IsNumber;
    ParseIntIff(e, y);
    forall f, l | IsRange(e, f, l)
      ensures f >= 0 && l >= 0 && MatchRange(e) == Some((f, l)) && !IsNumber(e, y)
    {
      RangeIsYears(e, f, l);
      RangeIsNoNumber(e, f, l, y);
    }
    if MatchRange(e).Some? { MatchHasParts(e); }
  }

  ghost predicate InPiece(p: string, y: int) { exists u, e, v :: Padded(p, u, e, v) && StandsFor(e, y) }

  ghost predicate InSomePiece(pieces: seq<string>, y: int) {
    exists i :: 0 <= i < |pieces| && InPiece(pieces[i], y)
  }

  lemma InPieceIff(p: string, y: int)
    ensures y in Years(Strip(p)) <==> InPiece(p, y)
  {
    hide Years, Strip, Padded, StandsFor;
    YearsIff(Strip(p), y);
    StripIff(p, Strip(p));
    forall u, e, v | Padded(p, u, e, v) ensures e == Strip(p) { StripPadded(p, u, e, v); }
  }

  lemma {:induction false} PiecesIff(pieces: seq<string>, y: int)
    ensures y in ProcessPieces(pieces) <==> InSomePiece(pieces, y)
    decreases |pieces|
  {
    hide Years, Strip, InPiece;
    if pieces != [] {
      var init, last := pieces[..|pieces| - 1], pieces[|pieces| - 1];
      PiecesIff(init, y);
      InPieceIff(last, y);
      assert forall i :: 0 <= i < |init| ==> pieces[i] == init[i];
    }
  }

  /** The list that separates the text at its commas. */
  ghost predicate Pieces(text: string, pieces: seq<string>) {
    pieces != [] && text == Join(pieces) && forall i :: 0 <= i < |pieces| ==> ',' !in pieces[i]
  }

  lemma JoinLonger(c: char, rest: seq<string>)
    requires rest != []
    ensures Join([[c] + rest[0]] + rest[1..]) == [c] + Join(rest)
  {
    var all := [[c] + rest[0]] + rest[1..];
    assert all[1..] == rest[1..];
    if |rest| == 1 { assert all == [[c] + rest[0]]; }
  }

  lemma {:induction false} SplitIsPieces(s: string)
    ensures Pieces(s, Split(s))
    decreases |s|
  {
    if s != [] {
      var rest := Split(s[1..]);
      SplitIsPieces(s[1..]);
      assert s == [s[0]] + s[1..];
      if s[0] == ',' {
        assert ([""] + rest)[1..] == rest;
      } else {
        hide Join;
        JoinLonger(s[0], rest);
      }
    }
  }

  /** The text is read piece by piece. */
  lemma ReadIff(text: string, pieces: seq<string>, y: int)
    requires Pieces(text, pieces)
    ensures y in ProcessPieces(Split(text)) <==> InSomePiece(pieces, y)
  {
    hide Split, ProcessPieces, InSomePiece;
    SplitJoin(pieces);
    PiecesIff(pieces, y);
  }
}
