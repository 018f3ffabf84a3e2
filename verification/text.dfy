/** String operations the storefront relies on, stated over `seq<char>`:
    trimming as `String.prototype.trim` does it, ASCII case mapping, substring
    search (`includes`), splitting on one separator and decimal rendering. */
module Text {

  /** The code points `trim` removes: ECMAScript WhiteSpace and LineTerminator. */
  predicate IsSpace(c: char) {
    var k := c as int;
    k == 0x09 || k == 0x0A || k == 0x0B || k == 0x0C || k == 0x0D || k == 0x20
    || k == 0xA0 || k == 0x1680 || (0x2000 <= k <= 0x200A) || k == 0x2028
    || k == 0x2029 || k == 0x202F || k == 0x205F || k == 0x3000 || k == 0xFEFF
  }

  predicate AllSpace(s: string) {
    forall i :: 0 <= i < |s| ==> IsSpace(s[i])
  }

  /** `s.trimStart()`: drops the leading white space and nothing else. */
  function TrimStart(s: string): (r: string)
    ensures |r| <= |s| && r == s[|s| - |r|..]
    ensures AllSpace(s[..|s| - |r|])
    ensures r != [] ==> !IsSpace(r[0])
    decreases |s|
  {
    if s != [] && IsSpace(s[0]) then
      var tail := s[1..];
      var r := TrimStart(tail);
      assert s[|s| - |r|..] == tail[|tail| - |r|..];
      assert s[..|s| - |r|] == [s[0]] + tail[..|tail| - |r|];
      AllSpaceConcat([s[0]], tail[..|tail| - |r|]);
      r
    else s
  }

  /** `s.trimEnd()`: drops the trailing white space and nothing else. */
  function TrimEnd(s: string): (r: string)
    ensures |r| <= |s| && r == s[..|r|]
    ensures AllSpace(s[|r|..])
    ensures r != [] ==> !IsSpace(r[|r| - 1])
    decreases |s|
  {
    if s != [] && IsSpace(s[|s| - 1]) then
      var init := s[..|s| - 1];
      var r := TrimEnd(init);
      assert s[..|r|] == init[..|r|];
      assert s[|r|..] == init[|r|..] + [s[|s| - 1]];
      AllSpaceConcat(init[|r|..], [s[|s| - 1]]);
      r
    else s
  }

  /** `s.trim()`. */
  function Trim(s: string): string {
    TrimEnd(TrimStart(s))
  }

  lemma AllSpaceConcat(a: string, b: string)
    requires AllSpace(a) && AllSpace(b)
    ensures AllSpace(a + b)
  {
    forall i | 0 <= i < |a + b| ensures IsSpace((a + b)[i]) {
      if i < |a| {
        assert (a + b)[i] == a[i];
      } else {
        assert (a + b)[i] == b[i - |a|];
      }
    }
  }

  /** A string is blank (`!s.trim()` holds) exactly when every character is white space. */
  lemma TrimEmptyIff(s: string)
    ensures Trim(s) == [] <==> AllSpace(s)
  {
    var t := TrimStart(s);
    var r := TrimEnd(t);
    var k := |s| - |t|;
    assert r == Trim(s);
    if r == [] {
      assert AllSpace(t) by {
        assert t[|r|..] == t;
      }
      AllSpaceAround(s, k);
    } else {
      assert r[0] == t[0] == s[k];
      assert !IsSpace(s[k]);
    }
  }

  /** White space before and from a cut makes a blank string. */
  lemma AllSpaceAround(s: string, k: nat)
    requires k <= |s| && AllSpace(s[..k]) && AllSpace(s[k..])
    ensures AllSpace(s)
  {
    AllSpaceConcat(s[..k], s[k..]);
    assert s == s[..k] + s[k..];
  }

  /** The trimmed text neither starts nor ends with white space, and trimming again changes nothing. */
  lemma TrimIdempotent(s: string)
    ensures Trim(s) == [] || (!IsSpace(Trim(s)[0]) && !IsSpace(Trim(s)[|Trim(s)| - 1]))
    ensures Trim(Trim(s)) == Trim(s)
  {
    var t := TrimStart(s);
    var r := TrimEnd(t);
    if r != [] {
      assert r[0] == t[0];
    }
  }

  // ---------------------------------------------------------------------------
  // Case mapping (ASCII letters only)

  function LowerChar(c: char): char {
    if 'A' <= c <= 'Z' then (c as int + 32) as char else c
  }

  function UpperChar(c: char): char {
    if 'a' <= c <= 'z' then (c as int - 32) as char else c
  }

  /** `s.toLowerCase()` restricted to ASCII letters. */
  function Lower(s: string): (r: string)
    ensures |r| == |s|
    ensures forall i :: 0 <= i < |s| ==> r[i] == LowerChar(s[i])
  {
    seq(|s|, i requires 0 <= i < |s| => LowerChar(s[i]))
  }

  /** `s.toUpperCase()` restricted to ASCII letters. */
  function Upper(s: string): (r: string)
    ensures |r| == |s|
    ensures forall i :: 0 <= i < |s| ==> r[i] == UpperChar(s[i])
  {
    seq(|s|, i requires 0 <= i < |s| => UpperChar(s[i]))
  }

  /** Lower-casing is idempotent and maps the empty string to itself. */
  lemma LowerIdempotent(s: string)
    ensures Lower(Lower(s)) == Lower(s)
  {
  }

  // ---------------------------------------------------------------------------
  // Substring search

  predicate IsPrefix(t: string, s: string) {
    |t| <= |s| && s[..|t|] == t
  }

  /** `s.includes(t)`, computed by trying every start position in turn. */
  predicate Includes(s: string, t: string)
    decreases |s|
  {
    IsPrefix(t, s) || (s != [] && Includes(s[1..], t))
  }

  /** `t` occurs in `s` starting at position `i`. */
  predicate OccursAt(s: string, t: string, i: int) {
    0 <= i <= |s| - |t| && s[i..i + |t|] == t
  }

  /** `Includes` finds `t` exactly when `t` occurs at some position of `s`. */
  lemma {:induction false} IncludesIff(s: string, t: string)
    ensures Includes(s, t) <==> exists i :: OccursAt(s, t, i)
    decreases |s|
  {
    if IsPrefix(t, s) {
      assert OccursAt(s, t, 0);
    } else if s == [] {
    } else {
      IncludesIff(s[1..], t);
      if Includes(s[1..], t) {
        var i :| OccursAt(s[1..], t, i);
        assert s[1..][i..i + |t|] == s[i + 1..i + 1 + |t|];
        assert OccursAt(s, t, i + 1);
      }
      if exists i :: OccursAt(s, t, i) {
        var i :| OccursAt(s, t, i);
        if i != 0 {
          assert s[1..][i - 1..i - 1 + |t|] == s[i..i + |t|];
          assert OccursAt(s[1..], t, i - 1);
        }
      }
    }
  }

  /** Every string includes the empty string: an empty search term matches everything. */
  lemma IncludesEmpty(s: string)
    ensures Includes(s, "")
  {
  }

  /** `s.toLowerCase().includes(q.toLowerCase())`: the case-insensitive match every search box uses. */
  predicate MatchesCi(s: string, q: string) {
    Includes(Lower(s), Lower(q))
  }

  /** An empty query matches every text. */
  lemma MatchesEmpty(s: string)
    ensures MatchesCi(s, "")
  {
    assert Lower("") == "";
    IncludesEmpty(Lower(s));
  }

  /** Every text matches itself: a term copied from a title finds that title. */
  lemma MatchesSelf(s: string)
    ensures MatchesCi(s, s)
  {
    assert IsPrefix(Lower(s), Lower(s));
  }

  // ---------------------------------------------------------------------------
  // Splitting and joining on one separator

  function Count(s: string, c: char): nat
    decreases |s|
  {
    if s == [] then 0 else (if s[0] == c then 1 else 0) + Count(s[1..], c)
  }

  /** `s.split(sep)` for a one-character separator: one piece more than separators, none holding `sep`. */
  function Split(s: string, sep: char): (r: seq<string>)
    ensures |r| == Count(s, sep) + 1
    ensures forall i :: 0 <= i < |r| ==> sep !in r[i]
    decreases |s|
  {
    if s == [] then [[]]
    else
      var rest := Split(s[1..], sep);
      if s[0] == sep then [[]] + rest
      else [[s[0]] + rest[0]] + rest[1..]
  }

  /** `parts.join(sep)`. */
  function Join(parts: seq<string>, sep: char): string
    decreases |parts|
  {
    if parts == [] then []
    else if |parts| == 1 then parts[0]
    else parts[0] + [sep] + Join(parts[1..], sep)
  }

  /** Every character of every part appears in the join. */
  lemma {:induction false} JoinHoldsParts(parts: seq<string>, sep: char, i: nat, k: nat)
    requires i < |parts| && k < |parts[i]|
    ensures parts[i][k] in Join(parts, sep)
    decreases |parts|
  {
    if |parts| > 1 {
      var j := Join(parts, sep);
      assert j == parts[0] + [sep] + Join(parts[1..], sep);
      if i == 0 {
        assert j[k] == parts[0][k];
      } else {
        assert parts[i] == parts[1..][i - 1];
        JoinHoldsParts(parts[1..], sep, i - 1, k);
      }
    }
  }

  /** Trimming a string without white space changes nothing. */
  lemma TrimNoSpace(s: string)
    requires forall i :: 0 <= i < |s| ==> !IsSpace(s[i])
    ensures Trim(s) == s
  {
  }

  /** Joining the pieces back with the separator restores the original text. */
  lemma {:induction false} JoinSplit(s: string, sep: char)
    ensures Join(Split(s, sep), sep) == s
    decreases |s|
  {
    if s != [] {
      JoinSplit(s[1..], sep);
      var rest := Split(s[1..], sep);
      if s[0] == sep {
        assert Split(s, sep) == [[]] + rest;
        assert s == [sep] + s[1..];
      } else {
        if |rest| == 1 {
          assert Join(rest, sep) == rest[0];
        } else {
          assert Join(rest, sep) == rest[0] + [sep] + Join(rest[1..], sep);
          assert Join([[s[0]] + rest[0]] + rest[1..], sep) == [s[0]] + rest[0] + [sep] + Join(rest[1..], sep);
        }
        assert s == [s[0]] + s[1..];
      }
    }
  }

  /** Splitting a join of separator-free pieces recovers the pieces. */
  lemma {:induction false} SplitJoin(parts: seq<string>, sep: char)
    requires |parts| >= 1
    requires forall i :: 0 <= i < |parts| ==> sep !in parts[i]
    ensures Split(Join(parts, sep), sep) == parts
    decreases |parts|
  {
    if |parts| == 1 {
      SplitNoSep(parts[0], sep);
      assert parts == [parts[0]];
    } else {
      var j := Join(parts[1..], sep);
      SplitJoin(parts[1..], sep);
      assert ([sep] + j)[0] == sep;
      assert ([sep] + j)[1..] == j;
      assert Split([sep] + j, sep) == [[]] + Split(j, sep);
      SplitPrefix(parts[0], [sep] + j, sep);
      assert Join(parts, sep) == parts[0] + ([sep] + j);
      var sp := Split([sep] + j, sep);
      assert sp[0] == [] && sp[1..] == parts[1..];
      assert parts[0] + [] == parts[0];
      assert [parts[0]] + parts[1..] == parts;
    }
  }

  lemma {:induction false} SplitNoSep(s: string, sep: char)
    requires sep !in s
    ensures Split(s, sep) == [s]
    decreases |s|
  {
    if s != [] {
      SplitNoSep(s[1..], sep);
      assert [s[0]] + s[1..] == s;
    }
  }

  /** A separator-free prefix is glued to the first piece of what follows it. */
  lemma {:induction false} SplitPrefix(p: string, t: string, sep: char)
    requires sep !in p
    ensures Split(p + t, sep) == [p + Split(t, sep)[0]] + Split(t, sep)[1..]
    decreases |p|
  {
    if p != [] {
      assert p[0] in p;
      assert (p + t)[0] == p[0] != sep;
      assert (p + t)[1..] == p[1..] + t;
      SplitPrefix(p[1..], t, sep);
      var rest := Split(p[1..] + t, sep);
      assert Split(p + t, sep) == [[p[0]] + rest[0]] + rest[1..];
      assert [p[0]] + (p[1..] + Split(t, sep)[0]) == p + Split(t, sep)[0];
    } else {
      var st := Split(t, sep);
      assert p + t == t && p + st[0] == st[0];
      assert [st[0]] + st[1..] == st;
    }
  }

  /** The index just after the last `sep` in `s`, or 0 when there is none. */
  function AfterLastSep(s: string, sep: char): (k: nat)
    ensures k <= |s|
    ensures sep !in s[k..]
    ensures k > 0 ==> s[k - 1] == sep
    decreases |s|
  {
    if s == [] then 0
    else if s[|s| - 1] == sep then |s|
    else
      var k := AfterLastSep(s[..|s| - 1], sep);
      assert s[k..] == s[..|s| - 1][k..] + [s[|s| - 1]];
      k
  }

  /** The last piece of `s.split(sep)`, i.e. `s.split(sep).pop()`: the text after the last separator. */
  function LastPiece(s: string, sep: char): (r: string)
    ensures sep !in r
    ensures |r| <= |s| && r == s[|s| - |r|..]
    ensures |r| < |s| ==> s[|s| - |r| - 1] == sep
    ensures sep !in s ==> r == s
  {
    var k := AfterLastSep(s, sep);
    assert k > 0 ==> s[k - 1] in s;
    s[k..]
  }

  /** `LastPiece` is the final element of `Split`. */
  lemma {:induction false} LastPieceIsLastOfSplit(s: string, sep: char)
    ensures LastPiece(s, sep) == Split(s, sep)[|Split(s, sep)| - 1]
  {
    var parts := Split(s, sep);
    assert forall i :: 0 <= i < |parts| ==> sep !in parts[i];
    assert Join(parts, sep) == s by {
      JoinSplit(s, sep);
    }
    LastOfJoin(parts, sep, s);
  }

  /** The text after the last separator of a join of separator-free pieces is the last piece. */
  lemma LastOfJoin(parts: seq<string>, sep: char, s: string)
    requires |parts| >= 1 && forall i :: 0 <= i < |parts| ==> sep !in parts[i]
    requires Join(parts, sep) == s
    ensures LastPiece(s, sep) == parts[|parts| - 1]
  {
    var last := parts[|parts| - 1];
    assert sep !in last;
    JoinLast(parts, sep);
    // Both are the separator-free suffix of s preceded by a separator or by the start.
    SuffixUnique(s, sep, LastPiece(s, sep), last);
  }

  /** The last piece of a join is a suffix preceded by the separator, or the whole join. */
  lemma {:induction false} JoinLast(parts: seq<string>, sep: char)
    requires |parts| >= 1
    ensures var j := Join(parts, sep); var l := parts[|parts| - 1];
      |l| <= |j| && j[|j| - |l|..] == l && (|l| < |j| ==> j[|j| - |l| - 1] == sep)
    decreases |parts|
  {
    if |parts| > 1 {
      JoinLast(parts[1..], sep);
      var rest := Join(parts[1..], sep);
      var j := Join(parts, sep);
      assert j == parts[0] + [sep] + rest;
      var l := parts[|parts| - 1];
      assert l == parts[1..][|parts[1..]| - 1];
      assert j[|j| - |rest|..] == rest;
      if |l| == |rest| {
        assert j[|j| - |l| - 1] == sep;
      } else {
        assert j[|j| - |l| - 1] == rest[|rest| - |l| - 1];
      }
      assert j[|j| - |l|..] == rest[|rest| - |l|..];
    }
  }

  /** Two separator-free suffixes of `s`, each preceded by the separator or the start, are equal. */
  lemma SuffixUnique(s: string, sep: char, a: string, b: string)
    requires sep !in a && sep !in b
    requires |a| <= |s| && s[|s| - |a|..] == a && (|a| < |s| ==> s[|s| - |a| - 1] == sep)
    requires |b| <= |s| && s[|s| - |b|..] == b && (|b| < |s| ==> s[|s| - |b| - 1] == sep)
    ensures a == b
  {
  }

  // ---------------------------------------------------------------------------
  // Decimal rendering, as `String(n)` and `URLSearchParams` write numbers

  function DigitChar(d: nat): char
    requires d < 10
  {
    ('0' as int + d) as char
  }

  predicate IsDigit(c: char) {
    '0' <= c <= '9'
  }

  /** Decimal digits of a natural number, most significant first. */
  function NatToString(n: nat): (r: string)
    ensures r != []
    ensures forall i :: 0 <= i < |r| ==> IsDigit(r[i])
    decreases n
  {
    if n < 10 then [DigitChar(n)] else NatToString(n / 10) + [DigitChar(n % 10)]
  }

  /** The value of a string of decimal digits. */
  function DigitsValue(s: string): nat
    requires forall i :: 0 <= i < |s| ==> IsDigit(s[i])
    decreases |s|
  {
    if s == [] then 0
    else
      assert IsDigit(s[|s| - 1]);
      10 * DigitsValue(s[..|s| - 1]) + (s[|s| - 1] as int - '0' as int)
  }

  /** Reading the rendered digits back gives the number: the rendering loses nothing. */
  lemma {:induction false} NatToStringRoundTrip(n: nat)
    ensures DigitsValue(NatToString(n)) == n
    decreases n
  {
    if n >= 10 {
      NatToStringRoundTrip(n / 10);
      var s := NatToString(n);
      assert s[..|s| - 1] == NatToString(n / 10);
    }
  }

  /** `String(i)` for an integer. */
  function IntToString(i: int): (r: string)
    ensures r != []
    ensures i < 0 <==> r[0] == '-'
  {
    if i < 0 then "-" + NatToString(-i) else NatToString(i)
  }

  // ---------------------------------------------------------------------------
  // Falsy fallbacks

  /** `a || b` on strings: the empty string is the only falsy string. */
  function OrElse(a: string, b: string): (r: string)
    ensures a != "" ==> r == a
    ensures a == "" ==> r == b
    ensures r == "" <==> a == "" && b == ""
  {
    if a != "" then a else b
  }
}
