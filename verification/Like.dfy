/** The subscriber search: escaping of LIKE metacharacters and the suffix match it is used for. */
module Like {
  import opened Common

  // ------------------------------------------------------------------ escaping

  function EscapedChar(c: char): string {
    if c == '\\' then "\\\\"
    else if c == '%' then "\\%"
    else if c == '_' then "\\_"
    else [c]
  }

  /** Backslash, percent and underscore get a backslash before them. */
  function EscapeLike(s: string): string {
    if s == "" then "" else EscapedChar(s[0]) + EscapeLike(s[1..])
  }

  // ------------------------------------------------------------------ the LIKE predicate of SQL

  datatype Token = Any | One | Literal(c: char)

  /** Reads a pattern under ESCAPE '\': an escape must be followed by an escape or a wildcard. */
  function Tokens(p: string): Option<seq<Token>> {
    if p == "" then Some([])
    else if p[0] == '\\' then
      if |p| == 1 || p[1] !in {'\\', '%', '_'} then None
      else
        var rest :- Tokens(p[2..]);
        Some([Literal(p[1])] + rest)
    else
      var rest :- Tokens(p[1..]);
      Some([if p[0] == '%' then Any else if p[0] == '_' then One else Literal(p[0])] + rest)
  }

  /** `%` stands for any text, `_` for any character, a literal for itself. */
  predicate Matches(ts: seq<Token>, s: string) {
    if ts == [] then s == ""
    else match ts[0]
      case Any => exists k | 0 <= k <= |s| :: Matches(ts[1..], s[k..])
      case One => s != "" && Matches(ts[1..], s[1..])
      case Literal(c) => s != "" && s[0] == c && Matches(ts[1..], s[1..])
  }

  /** `s LIKE p ESCAPE '\'`; an ill-formed pattern is an error. */
  predicate IsLike(s: string, p: string) {
    var ts := Tokens(p);
    ts.Some? && Matches(ts.value, s)
  }

  // ------------------------------------------------------------------ the match

  function Literals(q: string): seq<Token> {
    seq(|q|, i requires 0 <= i < |q| => Literal(q[i]))
  }

  /** An escaped text reads back as its own characters, each a literal. */
  lemma {:induction false} EscapeReadsBack(q: string)
    ensures Tokens(EscapeLike(q)) == Some(Literals(q))
  {
    if q == "" {
      assert Literals(q) == [];
    } else {
      var c, rest := q[0], EscapeLike(q[1..]);
      EscapeReadsBack(q[1..]);
      var p := EscapedChar(c) + rest;
      if c in {'\\', '%', '_'} {
        assert p[2..] == rest && p[1] == c;
      } else {
        assert p[1..] == rest;
      }
      assert Literals(q) == [Literal(c)] + Literals(q[1..]);
    }
  }

  lemma {:induction false} LiteralsMatchThemselves(q: string, s: string)
    ensures Matches(Literals(q), s) <==> s == q
  {
    if q != "" {
      assert Literals(q)[1..] == Literals(q[1..]);
      if s != "" {
        LiteralsMatchThemselves(q[1..], s[1..]);
        assert s == [s[0]] + s[1..] && q == [q[0]] + q[1..];
      }
    }
  }

  predicate IsSuffix(q: string, s: string) {
    |q| <= |s| && s[|s| - |q|..] == q
  }

  /** The search pattern matches a token exactly when the query is its tail, whatever either contains. */
  lemma SearchMatchesSuffix(q: string, s: string)
    ensures IsLike(s, "%" + EscapeLike(q)) <==> IsSuffix(q, s)
  {
    var p := "%" + EscapeLike(q);
    assert p[1..] == EscapeLike(q);
    EscapeReadsBack(q);
    var ts := Tokens(p).value;
    assert ts == [Any] + Literals(q) && ts[1..] == Literals(q);
    forall k | 0 <= k <= |s| ensures Matches(ts[1..], s[k..]) <==> s[k..] == q {
      LiteralsMatchThemselves(q, s[k..]);
    }
    if IsSuffix(q, s) {
      assert Matches(ts[1..], s[|s| - |q|..]);
    }
  }

  /** Without the escape a wildcard in the query would match what it is no tail of. */
  lemma UnescapedWouldOvermatch(s: string)
    ensures IsLike(s, "%" + "%")
    ensures !IsSuffix("%", s) ==> !IsLike(s, "%" + EscapeLike("%"))
  {
    assert ("%" + "%")[1..] == "%" && "%"[1..] == "";
    assert Tokens("").value == [];
    assert Tokens("%").value == [Any] + [];
    assert Tokens("%" + "%").value == [Any] + [Any];
    assert [Any, Any][1..] == [Any] && [Any][1..] == [];
    assert Matches([], s[|s|..]);
    assert Matches([Any], s[|s|..][0..]) by {
      assert s[|s|..][0..] == s[|s|..];
      assert Matches([Any][1..], s[|s|..][0..]);
    }
    assert s[|s|..][0..] == s[|s|..];
    assert Matches([Any, Any], s);
    SearchMatchesSuffix("%", s);
  }
}
