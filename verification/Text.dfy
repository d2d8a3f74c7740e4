/** Decimal integers and delimited text, as strconv and strings handle them. */
module Text {
  import opened Arith
  import opened Common
  import opened Int64

  predicate AllDigits(s: string) {
    forall i | 0 <= i < |s| :: '0' <= s[i] <= '9'
  }

  function Digits(n: nat): (s: string)
    ensures |s| > 0 && AllDigits(s)
  {
    var d := ['0' + (n % 10) as char];
    if n < 10 then d else Digits(n / 10) + d
  }

  /** strconv.FormatInt(x, 10). */
  function FormatInt(x: int): string {
    if x < 0 then "-" + Digits(-x) else Digits(x)
  }

  function DigitsValue(s: string): (v: int)
    requires AllDigits(s)
    ensures v >= 0
  {
    if s == "" then 0
    else DigitsValue(s[..|s| - 1]) * 10 + (s[|s| - 1] - '0') as int
  }

  /** strconv.ParseInt(s, 10, 64): an optional sign, at least one digit, and the int64 range. */
  function ParseInt(s: string): Option<int> {
    if s == "" then None
    else
      var signed := s[0] == '-' || s[0] == '+';
      var body := if signed then s[1..] else s;
      if body == "" || !AllDigits(body) then None
      else
        var v := if s[0] == '-' then -DigitsValue(body) else DigitsValue(body);
        if InRange(v) then Some(v) else None
  }

  lemma {:induction false} ValueOfDigits(n: nat)
    ensures DigitsValue(Digits(n)) == n
  {
    if n >= 10 {
      ValueOfDigits(n / 10);
      var s := Digits(n);
      assert s[..|s| - 1] == Digits(n / 10);
    }
  }

  lemma ParseUndoesFormat(x: int)
    ensures ParseInt(FormatInt(x)) == if InRange(x) then Some(x) else None
  {
    ValueOfDigits(if x < 0 then -x else x);
    if x < 0 {
      assert FormatInt(x)[1..] == Digits(-x);
    }
  }

  lemma FormatInjective(x: int, y: int)
    requires FormatInt(x) == FormatInt(y)
    ensures x == y
  {
    ValueOfDigits(if x < 0 then -x else x);
    ValueOfDigits(if y < 0 then -y else y);
    if x < 0 && y < 0 {
      assert FormatInt(x)[1..] == Digits(-x) && FormatInt(y)[1..] == Digits(-y);
    }
    assert (FormatInt(x)[0] == '-' <==> x < 0) && (FormatInt(y)[0] == '-' <==> y < 0);
  }

  /** No decimal integer contains `c` unless `c` is a digit or the minus sign. */
  lemma FormatFree(x: int, c: char)
    requires !('0' <= c <= '9') && c != '-'
    ensures c !in FormatInt(x)
  {
  }

  /** Two texts that agree around a separator absent from both tails agree on both sides of it. */
  lemma LastSeparator(a: string, b: string, x: string, y: string, c: char)
    requires a + [c] + b == x + [c] + y && c !in b && c !in y
    ensures a == x && b == y
  {
    var s := a + [c] + b;
    assert s[|a|] == c && s[|x|] == c;
    assert forall i | |a| < i < |s| :: s[i] == b[i - |a| - 1];
    assert forall i | |x| < i < |s| :: s[i] == y[i - |x| - 1];
    assert a == s[..|a|] && x == s[..|x|];
    assert b == s[|a| + 1..] && y == s[|x| + 1..];
  }

  /** strings.Join(parts, "\n"). */
  function JoinLines(parts: seq<string>): string {
    if |parts| == 0 then ""
    else if |parts| == 1 then parts[0]
    else parts[0] + "\n" + JoinLines(parts[1..])
  }

  /** Non-empty texts, none of which starts with another and a line break. */
  predicate Separable(p: seq<string>, q: seq<string>) {
    && (forall i | 0 <= i < |p| :: p[i] != "") && (forall i | 0 <= i < |q| :: q[i] != "")
    && (forall i, j | 0 <= i < |p| && 0 <= j < |q| :: !(p[i] + "\n" <= q[j]) && !(q[j] + "\n" <= p[i]))
  }

  lemma FirstRow(s: string, x: string, t: string, y: string)
    requires s + "\n" + x == t + "\n" + y
    ensures (s == t && x == y) || s + "\n" <= t || t + "\n" <= s
  {
    var u := s + "\n" + x;
    assert u[..|s|] == s && u[|s|] == '\n' && u[..|t|] == t && u[|t|] == '\n';
    assert u[..|s| + 1] == s + "\n" && u[..|t| + 1] == t + "\n";
    if |s| < |t| {
      assert t[..|s| + 1] == u[..|s| + 1];
    } else if |t| < |s| {
      assert s[..|t| + 1] == u[..|t| + 1];
    }
    assert x == u[|s| + 1..] && y == u[|t| + 1..];
  }

  lemma FirstOfMany(p: seq<string>)
    requires |p| > 1
    ensures p[0] + "\n" <= JoinLines(p)
  {
  }

  lemma {:induction false} JoinInjective(p: seq<string>, q: seq<string>)
    requires Separable(p, q) && JoinLines(p) == JoinLines(q)
    ensures p == q
  {
    if |p| > 1 {
      FirstOfMany(p);
    }
    if |q| > 1 {
      FirstOfMany(q);
    }
    if |p| > 1 && |q| > 1 {
      FirstRow(p[0], JoinLines(p[1..]), q[0], JoinLines(q[1..]));
      JoinInjective(p[1..], q[1..]);
      assert p == [p[0]] + p[1..] && q == [q[0]] + q[1..];
    }
  }
}
