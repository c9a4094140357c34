/** `datestr` and `process_dates` of `find_copyrights.py`: years printed as ranges and read
    back. */
module YearRanges {
  import opened Collections
  import opened YearText

  datatype Range = Range(first: int, last: int)

  function ShowRange(r: Range): string {
    if r.first == r.last then Show(r.first) else Show(r.first) + "-" + Show(r.last)
  }

  // ----- Reading back one entry -----

  /** Both years have four digits. */
  predicate FourDigits(r: Range) { 1000 <= r.first && r.last <= 9999 }

  lemma ShowChars(n: int)
    ensures Show(n) != [] && IsDigit(Show(n)[|Show(n)| - 1]) && (IsDigit(Show(n)[0]) || Show(n)[0] == '-')
    ensures forall i :: 0 <= i < |Show(n)| ==> IsDigit(Show(n)[i]) || Show(n)[i] == '-'
  {
  }

  lemma EntryIsPlain(r: Range)
    ensures ',' !in ShowRange(r) && Strip(ShowRange(r)) == ShowRange(r)
  {
    hide Show;
    ShowChars(r.first);
    ShowChars(r.last);
  }

  lemma SingleYear(n: int)
    ensures Years(Show(n)) == {n}
  {
    var s := Show(n);
    if n >= 0 {
      ValueOfDigits(n);
      assert MatchRange(s).None?;
    } else {
      assert s[1..] == Digits(-n);
      ValueOfDigits(-n);
      assert !IsDigit(s[0]);
    }
  }

  lemma OddRange(f: int, l: int)
    requires f < l && !(1000 <= f <= 9999)
    ensures Years(Show(f) + "-" + Show(l)) == {}
  {
    var s := Show(f) + "-" + Show(l);
    assert s[|Show(f)|] == '-';
    NotANumber(s, |Show(f)|);
    if f >= 0 {
      DigitsLength(f);
      if |Show(f)| < 4 && |s| >= 4 {
        assert s[..4][|Show(f)|] == '-';
      } else if |Show(f)| > 4 {
        assert s[4..][0] == Show(f)[4];
        assert IsDigit(s[4..][0]);
      }
    } else {
      assert !IsDigit(s[0]);
    }
  }

  /** The second number is cut off after its fourth digit. */
  lemma EvenMatch(f: int, l: int)
    requires f < l && 1000 <= f <= 9999
    ensures |Digits(l)| >= 4 && MatchRange(Show(f) + "-" + Show(l)) == Some((f, Value(Digits(l)[..4])))
  {
    var s := Show(f) + "-" + Show(l);
    DigitsLength(f);
    DigitsLength(l);
    ValueOfDigits(f);
    hide Value, Digits;
    assert s[..4] == Digits(f) && s[4..] == "-" + Digits(l) && s[4..][1..] == Digits(l);
    assert IsDigit(Digits(l)[0]);
  }

  lemma FourDigitValue(l: nat)
    requires |Digits(l)| >= 4
    ensures Value(Digits(l)[..4]) <= 9999 && (|Digits(l)| == 4 ==> Value(Digits(l)[..4]) == l)
  {
    var four := Digits(l)[..4];
    ValueBound(four);
    assert Exp10(4) == 10000;
    ValueOfDigits(l);
    if |Digits(l)| == 4 { assert four == Digits(l); }
  }

  lemma EvenRange(f: int, l: int)
    requires f < l && 1000 <= f <= 9999
    ensures if l <= 9999 then Years(Show(f) + "-" + Show(l)) == Span(f, l)
            else Years(Show(f) + "-" + Show(l)) <= Span(f, l - 1)
  {
    hide Value, Digits, MatchRange, Show;
    DigitsLength(l);
    EvenMatch(f, l);
    FourDigitValue(l);
  }

  /** An entry is read back as the years it was printed for exactly if it is a single year
      or a range of four-digit years; otherwise its last year is lost and nothing else
      appears instead. */
  lemma EntryReadsBack(r: Range)
    requires r.first <= r.last
    ensures r.first == r.last || FourDigits(r) ==> EntryYears(r) == Span(r.first, r.last)
    ensures !(r.first == r.last || FourDigits(r)) ==> EntryYears(r) <= Span(r.first, r.last - 1)
  {
    EntryIsPlain(r);
    hide Years;
    if r.first == r.last {
      SingleYear(r.first);
      assert Span(r.first, r.last) == {r.first};
    } else if 1000 <= r.first <= 9999 {
      EvenRange(r.first, r.last);
    } else {
      OddRange(r.first, r.last);
    }
  }

  // ----- Runs -----

  /** The runs of consecutive years in an ascending list. */
  ghost function Runs(ds: seq<int>): (rs: seq<Range>)
    requires ds != []
    ensures rs != []
    decreases |ds|
  {
    var d := ds[|ds| - 1];
    if |ds| == 1 then [Range(d, d)]
    else
      var rs := Runs(ds[..|ds| - 1]);
      var r := rs[|rs| - 1];
      if d == r.last + 1 then rs[..|rs| - 1] + [Range(r.first, d)] else rs + [Range(d, d)]
  }

  /** The ranges ascend, and no two of them overlap or are adjacent. */
  ghost predicate Maximal(rs: seq<Range>) {
    && (forall i :: 0 <= i < |rs| ==> rs[i].first <= rs[i].last)
    && (forall i, j :: 0 <= i < j < |rs| ==> rs[i].last + 1 < rs[j].first)
  }

  ghost predicate InSome(rs: seq<Range>, y: int) {
    exists i :: 0 <= i < |rs| && rs[i].first <= y <= rs[i].last
  }

  lemma InSomeMore(rs: seq<Range>, r: Range, y: int)
    ensures InSome(rs + [r], y) <==> InSome(rs, y) || r.first <= y <= r.last
  {
    if InSome(rs, y) {
      var i :| 0 <= i < |rs| && rs[i].first <= y <= rs[i].last;
      assert (rs + [r])[i] == rs[i];
    }
    if r.first <= y <= r.last { assert (rs + [r])[|rs|] == r; }
  }

  lemma MaximalLonger(front: seq<Range>, r: Range, d: int)
    requires Maximal(front + [r]) && d >= r.last
    ensures Maximal(front + [Range(r.first, d)])
  {
    var rs, ts := front + [r], front + [Range(r.first, d)];
    assert rs[|front|] == r;
    assert forall i :: 0 <= i < |front| ==> ts[i] == rs[i];
  }

  lemma MaximalMore(rs: seq<Range>, d: int)
    requires Maximal(rs) && (rs == [] || d > rs[|rs| - 1].last + 1)
    ensures Maximal(rs + [Range(d, d)])
  {
    var ts := rs + [Range(d, d)];
    forall i, j | 0 <= i < j < |ts| ensures ts[i].last + 1 < ts[j].first {
      if j == |rs| && i < |rs| - 1 { assert rs[i].last + 1 < rs[|rs| - 1].first; }
    }
  }

  lemma {:induction false} RunsMaximal(ds: seq<int>)
    requires Ascending(ds) && ds != []
    ensures Maximal(Runs(ds)) && Runs(ds)[|Runs(ds)| - 1].last == ds[|ds| - 1]
    decreases |ds|
  {
    hide Maximal;
    var d, init := ds[|ds| - 1], ds[..|ds| - 1];
    if |ds| == 1 {
      MaximalNone();
      MaximalMore([], d);
      assert [] + [Range(d, d)] == [Range(d, d)];
    } else {
      RunsMaximal(init);
      var rs := Runs(init);
      var r, front := rs[|rs| - 1], rs[..|rs| - 1];
      assert ds[|ds| - 2] < ds[|ds| - 1] && r.last == ds[|ds| - 2];
      assert rs == front + [r];
      if d == r.last + 1 { MaximalLonger(front, r, d); } else { MaximalMore(rs, d); }
    }
  }

  lemma MaximalNone()
    ensures Maximal([])
  {
  }

  /** One more year lengthens the last run or starts a new one. */
  lemma RunsGrow(ds: seq<int>)
    requires Ascending(ds) && |ds| > 1
    ensures var d, rs := ds[|ds| - 1], Runs(ds[..|ds| - 1]);
            var r := rs[|rs| - 1];
            && r.first <= r.last < d
            && Runs(ds) == if d == r.last + 1 then rs[..|rs| - 1] + [Range(r.first, d)] else rs + [Range(d, d)]
  {
    RunsMaximal(ds[..|ds| - 1]);
    assert ds[|ds| - 2] < ds[|ds| - 1];
  }

  lemma LongerHas(front: seq<Range>, r: Range, d: int, y: int)
    requires r.first <= r.last && d == r.last + 1
    ensures InSome(front + [Range(r.first, d)], y) <==> InSome(front + [r], y) || y == d
  {
    hide InSome;
    InSomeMore(front, r, y);
    InSomeMore(front, Range(r.first, d), y);
  }

  lemma RunsHave(ds: seq<int>, y: int)
    requires Ascending(ds) && |ds| > 1
    ensures InSome(Runs(ds), y) <==> InSome(Runs(ds[..|ds| - 1]), y) || y == ds[|ds| - 1]
  {
    hide InSome, Runs, Ascending;
    RunsGrow(ds);
    var d, rs := ds[|ds| - 1], Runs(ds[..|ds| - 1]);
    var r, front := rs[|rs| - 1], rs[..|rs| - 1];
    if d == r.last + 1 {
      assert rs == front + [r];
      LongerHas(front, r, d, y);
    } else {
      InSomeMore(rs, Range(d, d), y);
    }
  }

  lemma {:induction false} RunsContain(ds: seq<int>, y: int)
    requires Ascending(ds) && ds != []
    ensures y in ds <==> InSome(Runs(ds), y)
    decreases |ds|
  {
    hide InSome, Runs;
    var d, init := ds[|ds| - 1], ds[..|ds| - 1];
    assert ds == init + [d];
    if |ds| == 1 {
      FirstRun(d, y);
    } else {
      RunsContain(init, y);
      RunsHave(ds, y);
    }
  }

  lemma FirstRun(d: int, y: int)
    ensures InSome(Runs([d]), y) <==> y == d
  {
    assert Runs([d])[0] == Range(d, d);
  }

  // ----- The round trip -----

  ghost function Entries(rs: seq<Range>): (r: seq<string>)
    ensures |r| == |rs| && forall i :: 0 <= i < |rs| ==> r[i] == ShowRange(rs[i])
  {
    seq(|rs|, i requires 0 <= i < |rs| => ShowRange(rs[i]))
  }

  /** What `datestr` prints for an ascending list. */
  ghost function Text(ds: seq<int>): string
    requires ds != []
  {
    Join(Entries(Runs(ds)))
  }

  /** What `process_dates` reads. */
  ghost function ReadDates(s: string): set<int> { ProcessPieces(Split(s)) }

  /** The years that the entry printed for a range is read back as. */
  ghost function EntryYears(r: Range): set<int> { Years(Strip(ShowRange(r))) }

  ghost predicate InSomeEntry(rs: seq<Range>, y: int) {
    exists i :: 0 <= i < |rs| && y in EntryYears(rs[i])
  }

  lemma {:induction false} EntriesHave(rs: seq<Range>, y: int)
    ensures y in ProcessPieces(Entries(rs)) <==> InSomeEntry(rs, y)
    decreases |rs|
  {
    hide Years, Strip, ShowRange;
    if rs != [] {
      var init, last := rs[..|rs| - 1], rs[|rs| - 1];
      EntriesHave(init, y);
      assert Entries(rs)[..|rs| - 1] == Entries(init);
      assert rs == init + [last];
      if InSomeEntry(init, y) {
        var i :| 0 <= i < |init| && y in EntryYears(init[i]);
        assert rs[i] == init[i];
      }
    }
  }

  /** The text is read back entry by entry. */
  lemma ReadBackHas(ds: seq<int>, y: int)
    requires ds != []
    ensures y in ReadDates(Text(ds)) <==> InSomeEntry(Runs(ds), y)
  {
    var rs := Runs(ds);
    hide Years, Strip, ShowRange, Runs, InSomeEntry;
    forall i | 0 <= i < |rs|
      ensures ',' !in Entries(rs)[i]
    {
      EntryIsPlain(rs[i]);
    }
    SplitJoin(Entries(rs));
    EntriesHave(rs, y);
  }

  /** Whatever is lost, nothing is invented. */
  lemma ReadBackWithin(ds: seq<int>)
    requires Ascending(ds) && ds != []
    ensures ReadDates(Text(ds)) <= Elements(ds)
  {
    var rs := Runs(ds);
    RunsMaximal(ds);
    hide Years, Strip, ShowRange, Runs, ReadDates, Text;
    forall y | y in ReadDates(Text(ds))
      ensures y in ds
    {
      ReadBackHas(ds, y);
      RunsContain(ds, y);
      var i :| 0 <= i < |rs| && y in EntryYears(rs[i]);
      EntryReadsBack(rs[i]);
    }
  }

  /** Any two consecutive years of the set have four digits. */
  ghost predicate Printable(years: set<int>) {
    forall y :: y in years && y + 1 in years ==> 1000 <= y < 9999
  }

  lemma GoodRunsReadBack(ds: seq<int>)
    requires Ascending(ds) && ds != [] && Printable(Elements(ds))
    ensures Elements(ds) <= ReadDates(Text(ds))
  {
    var rs := Runs(ds);
    RunsMaximal(ds);
    forall y | y in ds
      ensures y in ReadDates(Text(ds))
    {
      ReadBackHas(ds, y);
      RunsContain(ds, y);
      var i :| 0 <= i < |rs| && rs[i].first <= y <= rs[i].last;
      RunIsPrintable(ds, i);
      hide Years, Strip, ShowRange, Runs, ReadDates, Text;
      EntryReadsBack(rs[i]);
      assert y in EntryYears(rs[i]);
    }
  }

  /** A run of two or more years is in the set with its ends and their neighbours. */
  lemma RunIsPrintable(ds: seq<int>, i: nat)
    requires Ascending(ds) && ds != [] && i < |Runs(ds)|
    ensures Runs(ds)[i].last in ds
    ensures Printable(Elements(ds)) ==> Runs(ds)[i].first == Runs(ds)[i].last || FourDigits(Runs(ds)[i])
  {
    var r := Runs(ds)[i];
    RunsMaximal(ds);
    hide Runs;
    RunsContain(ds, r.last);
    if r.first < r.last {
      RunsContain(ds, r.first);
      RunsContain(ds, r.first + 1);
      RunsContain(ds, r.last - 1);
      assert r.first in Elements(ds) && r.first + 1 in Elements(ds);
      assert r.last - 1 in Elements(ds) && r.last - 1 + 1 in Elements(ds);
    }
  }

  /** Consecutive years are in the same run. */
  lemma SameRun(ds: seq<int>, y: int) returns (i: nat)
    requires Ascending(ds) && ds != [] && y in ds && y + 1 in ds
    ensures i < |Runs(ds)| && Runs(ds)[i].first <= y && y + 1 <= Runs(ds)[i].last
  {
    var rs := Runs(ds);
    RunsMaximal(ds);
    RunsContain(ds, y);
    RunsContain(ds, y + 1);
    hide Runs;
    i :| 0 <= i < |rs| && rs[i].first <= y <= rs[i].last;
    var j :| 0 <= j < |rs| && rs[j].first <= y + 1 <= rs[j].last;
    assert !(i < j) && !(j < i);
  }

  /** A pair of consecutive years without four digits costs the last year of its run. */
  lemma BadRunLosesYear(ds: seq<int>, y: int)
    requires Ascending(ds) && ds != [] && y in ds && y + 1 in ds && !(1000 <= y < 9999)
    ensures !(Elements(ds) <= ReadDates(Text(ds)))
  {
    hide Years, Strip, ShowRange, Runs, ReadDates, Text, EntryYears, Ascending;
    var rs := Runs(ds);
    var i := SameRun(ds, y);
    var z := rs[i].last;
    RunsMaximal(ds);
    RunIsPrintable(ds, i);
    ReadBackHas(ds, z);
    forall k | 0 <= k < |rs|
      ensures z !in EntryYears(rs[k])
    {
      EntryReadsBack(rs[k]);
    }
    assert z in Elements(ds);
  }

  /** Printing years and reading them back returns the same years exactly when any two
      consecutive ones have four digits. */
  lemma RoundTripIff(ds: seq<int>)
    requires Ascending(ds) && ds != []
    ensures ReadDates(Text(ds)) == Elements(ds) <==> Printable(Elements(ds))
  {
    ReadBackWithin(ds);
    if Printable(Elements(ds)) {
      GoodRunsReadBack(ds);
    } else {
      var y :| y in Elements(ds) && y + 1 in Elements(ds) && !(1000 <= y < 9999);
      BadRunLosesYear(ds, y);
    }
  }

  // ----- The program -----

  lemma SomeYear(years: set<int>)
    ensures years == {} || exists y :: y in years
  {
    if !exists y :: y in years { assert years == {}; }
  }

  method Least(years: set<int>) returns (m: int)
    requires years != {}
    ensures m in years && forall y :: y in years ==> m <= y
  {
    SomeYear(years);
    m :| m in years;
    var rest := years - {m};
    while rest != {}
      invariant m in years && rest <= years && forall y :: y in years ==> y in rest || m <= y
      decreases rest
    {
      SomeYear(rest);
      var y :| y in rest;
      if y < m { m := y; }
      rest := rest - {y};
    }
  }

  method SortDates(dates: set<int>) returns (ds: seq<int>)
    ensures Ascending(ds) && Elements(ds) == dates
  {
    ds := [];
    var rest := dates;
    while rest != {}
      invariant rest <= dates && Ascending(ds) && Elements(ds) == dates - rest
      invariant forall i, y :: 0 <= i < |ds| && y in rest ==> ds[i] < y
      decreases rest
    {
      var m := Least(rest);
      assert Elements(ds + [m]) == Elements(ds) + {m};
      ds := ds + [m];
      rest := rest - {m};
    }
  }

  lemma EntriesMore(rs: seq<Range>, r: Range)
    ensures Entries(rs + [r]) == Entries(rs) + [ShowRange(r)]
  {
  }

  /** Between rounds: all years but `rest` are in the closed ranges, already printed, and
      the current range `r`. */
  ghost predicate Printed(ds: seq<int>, rest: seq<int>, closed: seq<Range>, r: Range, output: seq<string>) {
    && |rest| < |ds| && rest == ds[|ds| - |rest|..]
    && closed + [r] == Runs(ds[..|ds| - |rest|])
    && output == Entries(closed)
  }

  lemma PrintedFirst(ds: seq<int>)
    requires ds != []
    ensures Printed(ds, ds[1..], [], Range(ds[0], ds[0]), [])
  {
    hide Entries;
    FirstRuns(ds);
    NoEntries();
  }

  lemma PrintedNext(ds: seq<int>, rest: seq<int>, closed: seq<Range>, r: Range, output: seq<string>)
    requires Printed(ds, rest, closed, r, output) && rest != []
    ensures if rest[0] == r.last + 1
            then Printed(ds, rest[1..], closed, Range(r.first, rest[0]), output)
            else Printed(ds, rest[1..], closed + [r], Range(rest[0], rest[0]), output + [ShowRange(r)])
  {
    hide ShowRange, Runs, Entries;
    RunsStep(ds, |ds| - |rest|);
    EntriesMore(closed, r);
    assert (closed + [r])[..|closed|] == closed;
  }

  lemma PrintedAll(ds: seq<int>, closed: seq<Range>, r: Range, output: seq<string>)
    requires ds != [] && Printed(ds, [], closed, r, output)
    ensures Entries(Runs(ds)) == output + [ShowRange(r)]
  {
    hide ShowRange, Runs, Entries;
    assert ds[..|ds|] == ds;
    EntriesMore(closed, r);
  }

  /** The loop of `datestr`: extend the current range or close it. */
  method PrintRuns(ds: seq<int>) returns (r: string)
    requires ds != []
    ensures r == Text(ds)
  {
    hide ShowRange, Runs, Entries, Join, Printed;
    var first, second, rest, output := ds[0], ds[0], ds[1..], [];
    ghost var closed: seq<Range> := [];
    PrintedFirst(ds);
    while rest != []
      invariant Printed(ds, rest, closed, Range(first, second), output)
      decreases |rest|
    {
      var next := rest[0];
      PrintedNext(ds, rest, closed, Range(first, second), output);
      rest := rest[1..];
      if next == second + 1 {
        second := next;
      } else {
        output := output + [ShowRange(Range(first, second))];
        closed := closed + [Range(first, second)];
        first, second := next, next;
      }
    }
    PrintedAll(ds, closed, Range(first, second), output);
    output := output + [ShowRange(Range(first, second))];
    r := Join(output);
  }

  /** Print the years as maximal ascending ranges.  An empty set is an error; reading the
      text back returns the years exactly when any two consecutive ones have four digits. */
  method DateStr(dates: set<int>) returns (r: Option<string>)
    ensures r.None? <==> dates == {}
    ensures r.Some? ==> exists ds :: ds != [] && Ascending(ds) && Elements(ds) == dates && r.value == Text(ds)
    ensures r.Some? ==> (ReadDates(r.value) == dates <==> Printable(dates))
  {
    var ds := SortDates(dates);
    if ds == [] { return None; }
    assert ds[0] in Elements(ds);
    hide Text, ReadDates;
    RoundTripIff(ds);
    var text := PrintRuns(ds);
    r := Some(text);
  }

  lemma FirstRuns(ds: seq<int>)
    requires ds != []
    ensures Runs(ds[..1]) == [] + [Range(ds[0], ds[0])]
  {
  }

  lemma NoEntries()
    ensures Entries([]) == []
  {
  }

  lemma RunsStep(ds: seq<int>, k: nat)
    requires 0 < k < |ds|
    ensures var rs := Runs(ds[..k]);
            var r := rs[|rs| - 1];
            Runs(ds[..k + 1]) ==
            if ds[k] == r.last + 1 then rs[..|rs| - 1] + [Range(r.first, ds[k])] else rs + [Range(ds[k], ds[k])]
  {
    assert ds[..k + 1][..k] == ds[..k];
  }

  /** The loop over the years of a range. */
  method AddSpan(before: set<int>, first: int, last: int) returns (output: set<int>)
    ensures output == before + Span(first, last)
  {
    output := before;
    var i := first;
    while i < last + 1
      invariant first <= i && (i <= last + 1 || i == first) && output == before + Span(first, i - 1)
    {
      output := output + {i};
      i := i + 1;
    }
  }

  lemma PiecesMore(pieces: seq<string>, k: nat)
    requires k < |pieces|
    ensures ProcessPieces(pieces[..k + 1]) == ProcessPieces(pieces[..k]) + Years(Strip(pieces[k]))
  {
    hide Years, Strip;
    assert pieces[..k + 1][..k] == pieces[..k];
  }

  /** Read a list of years and ranges: the years that some piece between commas stands for. */
  method ProcessDates(text: string) returns (output: set<int>)
    ensures output == ReadDates(text)
    ensures forall pieces, y :: Pieces(text, pieces) ==> (y in output <==> InSomePiece(pieces, y))
    ensures exists pieces :: Pieces(text, pieces)
  {
    hide Split, Strip, MatchRange, ParseInt, Span;
    var dates := Split(text);
    output := {};
    for k := 0 to |dates|
      invariant output == ProcessPieces(dates[..k])
    {
      PiecesMore(dates, k);
      var date := Strip(dates[k]);
      match MatchRange(date) {
        case Some((first, last)) => output := AddSpan(output, first, last);
        case None =>
          match ParseInt(date) {
            case Some(y) => output := output + {y};
            case None =>
          }
      }
    }
    assert dates[..|dates|] == dates;
    DatesAreRead(text);
  }

  lemma DatesAreRead(text: string)
    ensures forall pieces, y :: Pieces(text, pieces) ==> (y in ReadDates(text) <==> InSomePiece(pieces, y))
    ensures exists pieces :: Pieces(text, pieces)
  {
    hide Pieces, InSomePiece, Split;
    SplitIsPieces(text);
    forall pieces, y | Pieces(text, pieces)
      ensures y in ReadDates(text) <==> InSomePiece(pieces, y)
    {
      ReadIff(text, pieces, y);
    }
  }
}
