/**
 LIKE patterns: escaping a literal value (escapeLikeValue) and what the patterns built for
 the operators co, sw and ew match.
 */
module LikePattern {

  predicate IsSpecial(c: char) {
    c == '%' || c == '_' || c == '\\'
  }

  function Escape(value: string): string {
    if value == "" then ""
    else Escape(value[..|value| - 1]) + if IsSpecial(value[|value| - 1]) then ['\\', value[|value| - 1]] else [value[|value| - 1]]
  }

  method EscapeLikeValue(value: string) returns (escaped: string)
    ensures escaped == Escape(value)
  {
    escaped := "";
    for i := 0 to |value|
      invariant escaped == Escape(value[..i])
    {
      assert value[..i + 1][..i] == value[..i];
      var c := value[i];
      if c == '%' || c == '_' || c == '\\' {
        escaped := escaped + ['\\', c];
      } else {
        escaped := escaped + [c];
      }
    }
    assert value[..|value|] == value;
  }

  /** SQL's LIKE with the default escape character; a lone escape at the end matches nothing. */
  predicate Matches(pattern: string, s: string)
    decreases |pattern|, |s|
  {
    if pattern == "" then s == ""
    else if pattern[0] == '%' then Matches(pattern[1..], s) || (s != "" && Matches(pattern, s[1..]))
    else if pattern[0] == '_' then s != "" && Matches(pattern[1..], s[1..])
    else if pattern[0] == '\\' then
      |pattern| > 1 && s != "" && s[0] == pattern[1] && Matches(pattern[2..], s[1..])
    else s != "" && s[0] == pattern[0] && Matches(pattern[1..], s[1..])
  }

  // ----- what the operators mean

  predicate Contains(s: string, v: string) {
    exists k :: 0 <= k <= |s| && v <= s[k..]
  }

  predicate EndsWith(s: string, v: string) {
    |v| <= |s| && s[|s| - |v|..] == v
  }

  // ----- escaped text matches itself only

  lemma {:induction false} EscapeFront(value: string)
    requires value != ""
    ensures Escape(value) == (if IsSpecial(value[0]) then ['\\', value[0]] else [value[0]]) + Escape(value[1..])
  {
    var n := |value| - 1;
    if n > 0 {
      EscapeFront(value[..n]);
      assert value[..n][1..] == value[1..][..n - 1];
      assert value[1..][n - 1] == value[n];
    } else {
      assert Escape(value[..0]) == "";
      assert value[1..] == "";
    }
  }

  /** An escaped prefix consumes exactly itself. */
  lemma {:induction false} EscapedPrefix(v: string, rest: string, s: string)
    ensures Matches(Escape(v) + rest, s) <==> v <= s && Matches(rest, s[|v|..])
  {
    if v == "" {
      assert Escape(v) + rest == rest;
    } else {
      EscapeFront(v);
      var head := if IsSpecial(v[0]) then ['\\', v[0]] else [v[0]];
      var pattern := Escape(v) + rest;
      assert pattern == head + (Escape(v[1..]) + rest);
      assert pattern[|head|..] == Escape(v[1..]) + rest;
      if s != "" && s[0] == v[0] {
        EscapedPrefix(v[1..], rest, s[1..]);
        if |v| <= |s| {
          assert s[1..][|v| - 1..] == s[|v|..];
        }
      }
    }
  }

  lemma {:induction false} PercentMatchesAll(s: string)
    ensures Matches("%", s)
  {
    if s != "" {
      PercentMatchesAll(s[1..]);
    }
  }

  lemma {:induction false} PercentSkips(rest: string, s: string)
    ensures Matches("%" + rest, s) <==> exists k :: 0 <= k <= |s| && Matches(rest, s[k..])
  {
    var pattern := "%" + rest;
    assert pattern[1..] == rest;
    assert s[0..] == s;
    if s != "" {
      PercentSkips(rest, s[1..]);
      assert forall k | 0 <= k <= |s| - 1 :: s[1..][k..] == s[k + 1..];
      if k :| 0 <= k <= |s| && Matches(rest, s[k..]) {
        if k > 0 {
          assert s[1..][k - 1..] == s[k..];
        }
      }
    }
  }

  lemma StartsWithPattern(v: string, s: string)
    ensures Matches(Escape(v) + "%", s) <==> v <= s
  {
    EscapedPrefix(v, "%", s);
    if v <= s {
      PercentMatchesAll(s[|v|..]);
    }
  }

  lemma EndsWithPattern(v: string, s: string)
    ensures Matches("%" + Escape(v), s) <==> EndsWith(s, v)
  {
    PercentSkips(Escape(v), s);
    assert Escape(v) + "" == Escape(v);
    forall k | 0 <= k <= |s|
      ensures Matches(Escape(v), s[k..]) <==> s[k..] == v
    {
      EscapedPrefix(v, "", s[k..]);
    }
    if EndsWith(s, v) {
      assert s[|s| - |v|..] == v;
    }
  }

  lemma ContainsPattern(v: string, s: string)
    ensures Matches("%" + Escape(v) + "%", s) <==> Contains(s, v)
  {
    assert "%" + Escape(v) + "%" == "%" + (Escape(v) + "%");
    PercentSkips(Escape(v) + "%", s);
    forall k | 0 <= k <= |s|
      ensures Matches(Escape(v) + "%", s[k..]) <==> v <= s[k..]
    {
      StartsWithPattern(v, s[k..]);
    }
  }

  // ----- the same with both sides lowercased

  function MapChars(lower: char -> char, s: string): (t: string)
    ensures |t| == |s|
  {
    seq(|s|, i requires 0 <= i < |s| => lower(s[i]))
  }

  /** Leaves the special characters alone and makes no other character special. */
  ghost predicate KeepsSpecials(lower: char -> char) {
    forall c :: (IsSpecial(c) ==> lower(c) == c) && (IsSpecial(lower(c)) ==> IsSpecial(c))
  }

  lemma {:induction false} EscapeCommutes(lower: char -> char, v: string)
    requires KeepsSpecials(lower)
    ensures MapChars(lower, Escape(v)) == Escape(MapChars(lower, v))
  {
    if v != "" {
      var front, last := v[..|v| - 1], v[|v| - 1];
      EscapeCommutes(lower, front);
      var tail := if IsSpecial(last) then ['\\', last] else [last];
      assert Escape(v) == Escape(front) + tail;
      assert MapChars(lower, Escape(v)) == MapChars(lower, Escape(front)) + MapChars(lower, tail);
      assert IsSpecial('\\') && lower('\\') == '\\';
      assert MapChars(lower, v)[..|v| - 1] == MapChars(lower, front);
    }
  }

  datatype Side = Anywhere | AtStart | AtEnd

  /** The pattern bound for co, sw and ew. */
  function PatternFor(side: Side, v: string): string {
    match side
    case Anywhere => "%" + Escape(v) + "%"
    case AtStart => Escape(v) + "%"
    case AtEnd => "%" + Escape(v)
  }

  predicate Occurs(side: Side, v: string, s: string) {
    match side
    case Anywhere => Contains(s, v)
    case AtStart => v <= s
    case AtEnd => EndsWith(s, v)
  }

  /** For every value, special characters included, the pattern finds exactly the literal value. */
  lemma PatternIsLiteral(side: Side, v: string, s: string)
    ensures Matches(PatternFor(side, v), s) <==> Occurs(side, v, s)
  {
    match side
    case Anywhere => ContainsPattern(v, s);
    case AtStart => StartsWithPattern(v, s);
    case AtEnd => EndsWithPattern(v, s);
  }

  /** LOWER on both sides of LIKE compares the lowercased texts, still literally. */
  lemma LoweredPatternIsLiteral(lower: char -> char, side: Side, v: string, s: string)
    requires KeepsSpecials(lower)
    ensures Matches(MapChars(lower, PatternFor(side, v)), MapChars(lower, s))
        <==> Occurs(side, MapChars(lower, v), MapChars(lower, s))
  {
    EscapeCommutes(lower, v);
    assert lower('%') == '%' by {
      assert IsSpecial('%');
    }
    assert MapChars(lower, PatternFor(side, v)) == PatternFor(side, MapChars(lower, v));
    PatternIsLiteral(side, MapChars(lower, v), MapChars(lower, s));
  }

  /** Fixing the special characters is not enough: a map that makes another one special breaks it. */
  lemma MapMustNotMakeSpecials(lower: char -> char, c: char)
    requires !IsSpecial(c) && lower(c) == '%' && lower('%') == '%' && lower('x') == 'x'
    ensures Matches(MapChars(lower, PatternFor(AtStart, [c])), MapChars(lower, "x"))
    ensures !Occurs(AtStart, MapChars(lower, [c]), MapChars(lower, "x"))
  {
    assert [c][..0] == "";
    assert Escape("") == "";
    assert Escape([c]) == [c];
    assert PatternFor(AtStart, [c]) == [c, '%'];
    var pattern := MapChars(lower, [c, '%']);
    assert pattern[0] == '%';
    assert MapChars(lower, "x") == "x";
    assert pattern == "%" + "%";
    PercentMatchesAll("x");
    assert pattern[1..] == "%";
    assert MapChars(lower, [c]) == "%";
  }
}
