/** Money as it is displayed: grouped thousands, the governed number of decimals, and the symbol. */
module MoneyFormat {
  import opened Arith
  import opened Common
  import opened Int64
  import opened Text

  /** The table admits 0 to 4 decimals. */
  datatype Format = Format(decimals: nat, symbol: string)

  // ------------------------------------------------------------------ grouping

  /** Digits in threes from the right. */
  function Grouped(s: string): string {
    if |s| <= 3 then s else Grouped(s[..|s| - 3]) + "," + s[|s| - 3..]
  }

  /** What the left-to-right pass has written after `i` characters. */
  function Written(s: string, i: nat): string
    requires i <= |s|
  {
    if i == 0 then ""
    else
      Written(s, i - 1) + (if i > 1 && (|s| - (i - 1)) % 3 == 0 then "," else "") + [s[i - 1]]
  }

  lemma {:induction false} WrittenOfPrefix(s: string, i: nat)
    requires 3 <= |s| && i <= |s| - 3
    ensures Written(s, i) == Written(s[..|s| - 3], i)
  {
    if i > 0 {
      WrittenOfPrefix(s, i - 1);
      assert (|s| - (i - 1)) % 3 == (|s| - 3 - (i - 1)) % 3;
    }
  }

  lemma WrittenLast(s: string, i: nat)
    requires 0 < i <= |s|
    ensures i > 1 && |s| - (i - 1) == 3 ==> Written(s, i) == Written(s, i - 1) + "," + [s[i - 1]]
    ensures i == 1 || |s| - (i - 1) < 3 ==> Written(s, i) == Written(s, i - 1) + [s[i - 1]]
  {
    var w := Written(s, i - 1);
    assert w + "" == w;
  }

  lemma ShortWritten(s: string)
    requires |s| <= 3
    ensures Written(s, |s|) == s
  {
    hide Written;
    assert Written(s, 0) == "" by {
      NothingWritten(s);
    }
    if |s| >= 1 {
      WrittenLast(s, 1);
    }
    if |s| >= 2 {
      WrittenLast(s, 2);
    }
    if |s| >= 3 {
      WrittenLast(s, 3);
    }
    assert s == s[..|s|];
  }

  lemma NothingWritten(s: string)
    ensures Written(s, 0) == ""
  {
  }

  /** Counting places from the right while writing from the left gives the same groups. */
  lemma {:induction false} WrittenIsGrouped(s: string)
    ensures Written(s, |s|) == Grouped(s)
  {
    hide Written;
    var n := |s|;
    if n <= 3 {
      ShortWritten(s);
    } else {
      WrittenIsGrouped(s[..n - 3]);
      WrittenOfPrefix(s, n - 3);
      WrittenLast(s, n - 2);
      WrittenLast(s, n - 1);
      WrittenLast(s, n);
      var w := Written(s, n - 3);
      assert w + "," + [s[n - 3]] + [s[n - 2]] + [s[n - 1]] == w + "," + s[n - 3..];
    }
  }

  function GroupMinor(n: int): string {
    var m := if n < 0 then Wrap(-n) else n;
    (if n < 0 then "-" else "") + Grouped(FormatInt(m))
  }

  method GroupMinorText(n: int) returns (r: string)
    ensures r == GroupMinor(n)
  {
    var neg := n < 0;
    var m := n;
    if neg {
      m := Wrap(-m);
    }
    var s := FormatInt(m);
    var b := "";
    var i := 0;
    while i < |s|
      invariant 0 <= i <= |s|
      invariant b == Written(s, i)
    {
      if i > 0 && (|s| - i) % 3 == 0 {
        b := b + ",";
      }
      b := b + [s[i]];
      i := i + 1;
    }
    WrittenIsGrouped(s);
    r := if neg then "-" + b else b;
  }

  // ------------------------------------------------------------------ display

  function Pow10(n: nat): (p: nat)
    ensures p >= 1
  {
    if n == 0 then 1 else 10 * Pow10(n - 1)
  }

  function Zeros(n: nat): string {
    if n == 0 then "" else Zeros(n - 1) + "0"
  }

  /** The fraction, padded to the governed width. */
  function Padded(fs: string, width: nat): string {
    Zeros(if |fs| < width then width - |fs| else 0) + fs
  }

  function Display(minor: int, f: Format): string {
    var m := if minor < 0 then Wrap(-minor) else minor;
    var div := Pow10(f.decimals);
    (if minor < 0 then "-" else "") + f.symbol + GroupMinor(TruncDiv(m, div))
    + if f.decimals > 0 then "." + Padded(FormatInt(TruncMod(m, div)), f.decimals) else ""
  }

  method Power(n: nat) returns (p: nat)
    ensures p == Pow10(n)
  {
    p := 1;
    var i := 0;
    while i < n
      invariant 0 <= i <= n
      invariant p == Pow10(i)
    {
      p := p * 10;
      i := i + 1;
    }
  }

  method Pad(fs: string, width: nat) returns (r: string)
    ensures r == Padded(fs, width)
  {
    r := "";
    var i := |fs|;
    while i < width
      invariant |fs| <= i
      invariant i <= width || i == |fs|
      invariant r == Zeros(i - |fs|)
    {
      r := r + "0";
      i := i + 1;
    }
    r := r + fs;
  }

  method FormatMoney(minor: int, formats: map<string, Format>, code: string) returns (r: string)
    ensures code !in formats ==> r == code + " " + GroupMinor(minor)
    ensures code in formats ==> r == Display(minor, formats[code])
  {
    if code !in formats {
      var g := GroupMinorText(minor);
      return code + " " + g;
    }
    var f := formats[code];
    hide Wrap, TruncDiv, TruncMod, FormatInt, GroupMinor, Padded, Pow10;
    var neg := minor < 0;
    var m := minor;
    if neg {
      m := Wrap(-m);
    }
    var div := Power(f.decimals);
    var major := GroupMinorText(TruncDiv(m, div));
    r := (if neg then "-" else "") + f.symbol + major;
    if f.decimals > 0 {
      var fraction := Pad(FormatInt(TruncMod(m, div)), f.decimals);
      r := r + ("." + fraction);
    } else {
      assert r + "" == r;
    }
  }

  // ------------------------------------------------------------------ reading back

  /** The digits of a text, in order. */
  function OnlyDigits(s: string): (d: string)
    ensures AllDigits(d)
  {
    if s == "" then ""
    else
      var rest, c := OnlyDigits(s[..|s| - 1]), s[|s| - 1];
      if '0' <= c <= '9' then rest + [c] else rest
  }

  /** Digits, grouping commas and a decimal point. */
  predicate Figures(s: string) {
    forall i | 0 <= i < |s| :: '0' <= s[i] <= '9' || s[i] == ',' || s[i] == '.'
  }

  function FiguresValue(s: string): Option<int> {
    if Figures(s) then Some(DigitsValue(OnlyDigits(s))) else None
  }

  /** A reader who knows the symbol takes the sign in front of it and the figures behind it, and nothing else. */
  function Read(s: string, f: Format): Option<int> {
    if "-" + f.symbol <= s then
      var v := FiguresValue(s[1 + |f.symbol|..]);
      if v.Some? then Some(-v.value) else None
    else if f.symbol <= s then FiguresValue(s[|f.symbol|..])
    else None
  }

  lemma {:induction false} DigitsOfConcat(a: string, b: string)
    ensures OnlyDigits(a + b) == OnlyDigits(a) + OnlyDigits(b)
  {
    if b == "" {
      assert a + b == a;
    } else {
      assert (a + b)[..|a + b| - 1] == a + b[..|b| - 1];
      DigitsOfConcat(a, b[..|b| - 1]);
    }
  }

  lemma {:induction false} DigitsOfDigits(s: string)
    requires AllDigits(s)
    ensures OnlyDigits(s) == s
  {
    if s != "" {
      DigitsOfDigits(s[..|s| - 1]);
    }
  }

  /** Grouping adds no digit and loses none. */
  lemma {:induction false} DigitsOfGrouped(s: string)
    ensures OnlyDigits(Grouped(s)) == OnlyDigits(s)
  {
    if |s| > 3 {
      var n := |s| - 3;
      DigitsOfGrouped(s[..n]);
      DigitsOfConcat(Grouped(s[..n]) + ",", s[n..]);
      DigitsOfConcat(Grouped(s[..n]), ",");
      assert OnlyDigits(",") == OnlyDigits("") by {
        assert ","[..0] == "";
      }
      DigitsOfConcat(s[..n], s[n..]);
      assert s == s[..n] + s[n..];
    }
  }

  lemma ValueOfLast(s: string)
    requires s != "" && AllDigits(s)
    ensures AllDigits(s[..|s| - 1])
    ensures DigitsValue(s) == DigitsValue(s[..|s| - 1]) * 10 + (s[|s| - 1] - '0') as int
  {
  }

  lemma {:induction false} ValueOfConcat(a: string, b: string)
    requires AllDigits(a) && AllDigits(b)
    ensures AllDigits(a + b) && DigitsValue(a + b) == DigitsValue(a) * Pow10(|b|) + DigitsValue(b)
  {
    if b == "" {
      assert a + b == a;
    } else {
      hide DigitsValue;
      var n := |b| - 1;
      assert (a + b)[..|a| + n] == a + b[..n];
      ValueOfLast(b);
      ValueOfLast(a + b);
      ValueOfConcat(a, b[..n]);
      TenTimes(DigitsValue(a), Pow10(n));
    }
  }

  lemma TenTimes(x: int, p: int)
    ensures (x * p) * 10 == x * (10 * p)
  {
  }

  lemma {:induction false} ZerosAreZero(n: nat)
    ensures AllDigits(Zeros(n)) && DigitsValue(Zeros(n)) == 0 && |Zeros(n)| == n
  {
    if n > 0 {
      ZerosAreZero(n - 1);
      assert Zeros(n)[..n - 1] == Zeros(n - 1);
    }
  }

  /** A number below 10^w has at most w digits. */
  lemma {:induction false} DigitsFit(n: nat, w: nat)
    requires w > 0 && n < Pow10(w)
    ensures |Digits(n)| <= w
  {
    if n >= 10 {
      assert Pow10(w) == 10 * Pow10(w - 1) && Pow10(0) == 1;
      DigitsFit(n / 10, w - 1);
    }
  }

  lemma PaddedReads(fs: string, width: nat)
    requires AllDigits(fs)
    ensures var t := Padded(fs, width);
            AllDigits(t) && |t| == (if |fs| < width then width else |fs|) && DigitsValue(t) == DigitsValue(fs)
  {
    hide DigitsValue, Zeros, Pow10;
    var n := if |fs| < width then width - |fs| else 0;
    ZerosAreZero(n);
    ValueOfConcat(Zeros(n), fs);
  }

  /** A governed format without its symbol. */
  predicate Bare(f: Format) {
    f.decimals <= 4 && f.symbol == ""
  }

  lemma ReadBare(s: string, f: Format)
    requires Bare(f)
    ensures Read(s, f) ==
            if s != "" && s[0] == '-' then
              if FiguresValue(s[1..]).Some? then Some(-FiguresValue(s[1..]).value) else None
            else FiguresValue(s)
  {
    hide FiguresValue;
    assert "-" + "" == "-" && s[0..] == s;
    assert "-" <= s <==> s != "" && s[0] == '-';
  }

  /** A text without digits, a grouped number, a text without digits and a run of digits, read together. */
  lemma PiecesRead(a: string, major: nat, b: string, t: string)
    requires OnlyDigits(a) == "" && OnlyDigits(b) == "" && AllDigits(t)
    ensures DigitsValue(OnlyDigits(a + Grouped(Digits(major)) + b + t)) == major * Pow10(|t|) + DigitsValue(t)
  {
    hide *;
    ReadsAsIs(major);
    DigitsOfConcat(a, Grouped(Digits(major)));
    DigitsOfConcat(a + Grouped(Digits(major)), b);
    DigitsOfConcat(a + Grouped(Digits(major)) + b, t);
    DigitsOfDigits(t);
    ValueOfConcat(Digits(major), t);
    assert "" + Digits(major) + "" + t == Digits(major) + t;
  }

  lemma ReadsAsIs(n: nat)
    ensures OnlyDigits(Grouped(Digits(n))) == Digits(n) && DigitsValue(Digits(n)) == n
  {
    hide Digits;
    DigitsOfGrouped(Digits(n));
    DigitsOfDigits(Digits(n));
    ValueOfDigits(n);
  }

  lemma Separators()
    ensures OnlyDigits(".") == "" && OnlyDigits("-") == "" && OnlyDigits("") == ""
  {
    assert "."[..0] == "" && "-"[..0] == "";
  }

  /** Go's quotient and remainder by a power of ten, of either sign. */
  lemma TruncParts(q: nat, r: nat, div: nat)
    requires r < div
    ensures TruncDiv(q * div + r, div) == q && TruncMod(q * div + r, div) == r
    ensures q > 0 ==> TruncDiv(-(q * div + r), div) == 0 - q && TruncMod(-(q * div + r), div) == 0 - r
  {
    var x := q * div + r;
    DivUnique(x, div, q, r);
    MulMono(0, q, div);
    if q > 0 {
      MulMono(1, q, div);
    }
  }

  /** The pieces of the display of a non-negative amount. */
  lemma DisplayShape(m: nat, f: Format, q: nat, r: nat)
    requires m == q * Pow10(f.decimals) + r && r < Pow10(f.decimals)
    ensures Display(m, f) ==
            if f.decimals > 0 then f.symbol + Grouped(Digits(q)) + "." + Padded(Digits(r), f.decimals)
            else f.symbol + Grouped(Digits(q)) + "" + ""
  {
    TruncParts(q, r, Pow10(f.decimals));
    hide Grouped, Digits, Padded, Pow10, TruncDiv, TruncMod;
    var g := f.symbol + Grouped(Digits(q));
    assert "" + f.symbol == f.symbol && "" + Grouped(Digits(q)) == Grouped(Digits(q));
    assert g + "" + "" == g && g + "" == g;
  }

  lemma {:induction false} GroupedFigures(s: string)
    requires AllDigits(s)
    ensures Figures(Grouped(s))
  {
    if |s| > 3 {
      GroupedFigures(s[..|s| - 3]);
    }
  }

  lemma {:induction false} ZerosFigures(n: nat)
    ensures Figures(Zeros(n))
  {
    if n > 0 {
      ZerosFigures(n - 1);
    }
  }

  /** The display of a non-negative amount is figures only. */
  lemma BodyFigures(m: nat, f: Format)
    requires Bare(f) && m <= MAX_INT64
    ensures Figures(Display(m, f))
  {
    hide Display, Digits, Grouped, Zeros, Pow10;
    var div := Pow10(f.decimals);
    DivMod(m, div);
    NotNegative(m, div);
    DisplayShape(m, f, m / div, m % div);
    GroupedFigures(Digits(m / div));
    ZerosFigures(if |Digits(m % div)| < f.decimals then f.decimals - |Digits(m % div)| else 0);
  }

  /** The display of a non-negative amount reads as the amount. */
  lemma BodyReads(m: nat, f: Format)
    requires Bare(f) && m <= MAX_INT64
    ensures DigitsValue(OnlyDigits(Display(m, f))) == m
  {
    hide Display, Digits, DigitsValue, OnlyDigits, Grouped, Padded, Pow10;
    var div := Pow10(f.decimals);
    DivMod(m, div);
    var major, frac := m / div, m % div;
    NotNegative(m, div);
    Separators();
    DisplayShape(m, f, major, frac);
    if f.decimals > 0 {
      DigitsFit(frac, f.decimals);
      ValueOfDigits(frac);
      PaddedReads(Digits(frac), f.decimals);
      PiecesRead(f.symbol, major, ".", Padded(Digits(frac), f.decimals));
    } else {
      PiecesRead(f.symbol, major, "", "");
      NoDigits();
    }
  }

  lemma NotNegative(m: nat, div: nat)
    requires div > 0
    ensures m / div >= 0 && m % div >= 0
  {
  }

  lemma NoDigits()
    ensures Pow10(0) == 1 && DigitsValue("") == 0 && AllDigits("")
  {
  }

  lemma DisplayOfNegative(minor: int, f: Format)
    requires MIN_INT64 < minor < 0
    ensures Display(minor, f) == "-" + Display(-minor, f)
  {
    hide GroupMinor, TruncDiv, TruncMod, FormatInt, Padded, Pow10;
    var m := -minor;
    assert "" + f.symbol == f.symbol;
  }

  lemma DisplayStarts(m: nat, f: Format)
    requires m <= MAX_INT64
    ensures |Display(m, f)| > |f.symbol| && f.symbol <= Display(m, f) && '0' <= Display(m, f)[|f.symbol|] <= '9'
  {
    var q := m / Pow10(f.decimals);
    NotNegative(m, Pow10(f.decimals));
    DivMod(m, Pow10(f.decimals));
    DisplayShape(m, f, q, m % Pow10(f.decimals));
    GroupedStarts(Digits(q));
    hide Grouped, Digits, Padded, Pow10, Display;
    var g := Grouped(Digits(q));
    var d := Display(m, f);
    assert f.symbol + g <= d;
    assert d[|f.symbol|] == g[0];
  }

  lemma {:induction false} GroupedStarts(s: string)
    requires s != ""
    ensures Grouped(s) != "" && Grouped(s)[0] == s[0]
  {
    if |s| > 3 {
      GroupedStarts(s[..|s| - 3]);
    }
  }

  /** The least int64 keeps its sign through the negation, which wraps: the grouped part has a minus sign of its
      own, behind the one in front. */
  lemma LeastHasTwoSigns(f: Format)
    requires Bare(f)
    ensures var d := Display(MIN_INT64, f); |d| > 1 && d[0] == d[1] == '-'
  {
    WrapUnique(-MIN_INT64, MIN_INT64, 1);
    SmallPowers();
    var q := TruncDiv(MIN_INT64, Pow10(f.decimals));
    assert q < 0;
    hide Grouped, FormatInt, Padded, Pow10, TruncDiv, TruncMod, Wrap;
    assert GroupMinor(q)[0] == '-';
    assert "-" + f.symbol == "-";
  }

  lemma SmallPowers()
    ensures Pow10(0) == 1 && Pow10(1) == 10 && Pow10(2) == 100 && Pow10(3) == 1_000 && Pow10(4) == 10_000
  {
    assert Pow10(3) == 10 * Pow10(2);
    assert Pow10(4) == 10 * Pow10(3);
  }

  lemma BareReadsBack(minor: int, f: Format)
    requires InRange(minor) && Bare(f)
    ensures Read(Display(minor, f), f) == if minor == MIN_INT64 then None else Some(minor)
  {
    hide Display, Digits, DigitsValue, OnlyDigits, Pow10, Read;
    ReadBare(Display(minor, f), f);
    if minor >= 0 {
      BodyReads(minor, f);
      BodyFigures(minor, f);
      DisplayStarts(minor, f);
    } else if minor > MIN_INT64 {
      BodyReads(-minor, f);
      BodyFigures(-minor, f);
      DisplayOfNegative(minor, f);
      assert ("-" + Display(-minor, f))[1..] == Display(-minor, f);
    } else {
      LeastHasTwoSigns(f);
      assert Display(minor, f)[1..][0] == '-';
    }
  }

  /** What follows the symbol. */
  function Rest(minor: int, f: Format): string {
    var m := if minor < 0 then Wrap(-minor) else minor;
    var div := Pow10(f.decimals);
    GroupMinor(TruncDiv(m, div))
    + if f.decimals > 0 then "." + Padded(FormatInt(TruncMod(m, div)), f.decimals) else ""
  }

  lemma DisplayParts(minor: int, f: Format)
    ensures Display(minor, f) == (if minor < 0 then "-" else "") + f.symbol + Rest(minor, f)
  {
    hide GroupMinor, TruncDiv, TruncMod, FormatInt, Padded, Pow10, Wrap;
    var m := if minor < 0 then Wrap(-minor) else minor;
    var div := Pow10(f.decimals);
    var g := GroupMinor(TruncDiv(m, div));
    var frac := if f.decimals > 0 then "." + Padded(FormatInt(TruncMod(m, div)), f.decimals) else "";
    var sign := if minor < 0 then "-" else "";
    assert sign + f.symbol + g + frac == sign + f.symbol + (g + frac);
  }

  /** A text of minus signs is all that can stand both before and after one more minus sign. */
  lemma {:induction false} OnlyMinus(symbol: string, rest: string, i: nat)
    requires "-" + symbol <= symbol + rest && i <= |symbol| && i < |symbol + rest|
    ensures (symbol + rest)[i] == '-'
  {
    var s := symbol + rest;
    assert s[i] == ("-" + symbol)[i];
    if i > 0 {
      OnlyMinus(symbol, rest, i - 1);
      assert ("-" + symbol)[i] == symbol[i - 1] == s[i - 1];
    }
  }

  /** Whatever the symbol, a reader who knows it sees what the bare amount shows. */
  lemma SymbolReads(minor: int, f: Format)
    requires InRange(minor)
    ensures var bare := f.(symbol := ""); Read(Display(minor, f), f) == Read(Display(minor, bare), bare)
  {
    hide Display, Rest, Grouped, Digits, FiguresValue, Pow10;
    var bare := f.(symbol := "");
    DisplayParts(minor, f);
    DisplayParts(minor, bare);
    SameRest(minor, f);
    var rest := Rest(minor, f);
    if minor < 0 {
      var d, e := "-" + f.symbol + rest, "-" + "" + rest;
      assert d[1 + |f.symbol|..] == rest && e[1..] == rest;
      assert "-" + f.symbol <= d && "-" + "" <= e;
    } else {
      DisplayStarts(minor, f);
      var d, e := "" + f.symbol + rest, "" + "" + rest;
      assert d == f.symbol + rest && e == rest;
      assert d[|f.symbol|..] == rest && e[0..] == rest;
      assert rest[0] == d[|f.symbol|];
      if "-" + f.symbol <= d {
        OnlyMinus(f.symbol, rest, |f.symbol|);
        assert false;
      }
      assert e[0] == rest[0] && ("-" + "")[0] == '-';
      assert !("-" + "" <= e);
    }
  }

  lemma SameRest(minor: int, f: Format)
    ensures Rest(minor, f.(symbol := "")) == Rest(minor, f)
  {
  }

  /** Every displayed amount reads back as itself under every symbol, even one with digits or minus signs of its
      own; the least int64 alone is displayed as no amount at all. */
  lemma DisplayReadsBack(minor: int, f: Format)
    requires InRange(minor) && f.decimals <= 4
    ensures Read(Display(minor, f), f) == if minor == MIN_INT64 then None else Some(minor)
  {
    hide Display, Read;
    SymbolReads(minor, f);
    BareReadsBack(minor, f.(symbol := ""));
  }
}
