/** Query-string encoding as the browser does it: `encodeURIComponent`, the
    `application/x-www-form-urlencoded` serializer behind `URLSearchParams.toString()`,
    and the matching decoder a server applies to each name and value. Characters are
    encoded as their UTF-8 bytes; the decoder turns each `%XX` back into one byte, read
    as the character with that code, which is exact for ASCII text. */
module Uri {
  import opened Wrappers
  import Text

  // ---------------------------------------------------------------------------
  // Bytes and hex

  /** The UTF-8 encoding of one Unicode scalar value. */
  function Utf8(c: char): (bs: seq<nat>)
    ensures 1 <= |bs| <= 4
    ensures forall i :: 0 <= i < |bs| ==> bs[i] < 256
    ensures c as int < 0x80 <==> |bs| == 1
    ensures c as int < 0x80 ==> bs == [c as int]
  {
    var k := c as int;
    if k < 0x80 then [k]
    else if k < 0x800 then [0xC0 + k / 64, 0x80 + k % 64]
    else if k < 0x10000 then [0xE0 + k / 4096, 0x80 + (k / 64) % 64, 0x80 + k % 64]
    else [0xF0 + k / 262144, 0x80 + (k / 4096) % 64, 0x80 + (k / 64) % 64, 0x80 + k % 64]
  }

  const HexDigits: string := "0123456789ABCDEF"

  function HexDigit(d: nat): (c: char)
    requires d < 16
    ensures IsHex(c) && HexValue(c) == d
  {
    HexDigits[d]
  }

  predicate IsHex(c: char) {
    ('0' <= c <= '9') || ('A' <= c <= 'F') || ('a' <= c <= 'f')
  }

  function HexValue(c: char): (v: nat)
    requires IsHex(c)
    ensures v < 16
  {
    if '0' <= c <= '9' then c as int - '0' as int
    else if 'A' <= c <= 'F' then c as int - 'A' as int + 10
    else c as int - 'a' as int + 10
  }

  /** `%XX` with upper-case hex digits. */
  function PercentByte(b: nat): (r: string)
    requires b < 256
    ensures |r| == 3 && r[0] == '%' && IsHex(r[1]) && IsHex(r[2])
    ensures 16 * HexValue(r[1]) + HexValue(r[2]) == b
  {
    ['%', HexDigit(b / 16), HexDigit(b % 16)]
  }

  function PercentBytes(bs: seq<nat>): (r: string)
    requires forall i :: 0 <= i < |bs| ==> bs[i] < 256
    ensures |r| == 3 * |bs|
    decreases |bs|
  {
    if bs == [] then [] else PercentByte(bs[0]) + PercentBytes(bs[1..])
  }

  predicate IsAsciiAlnum(c: char) {
    ('0' <= c <= '9') || ('A' <= c <= 'Z') || ('a' <= c <= 'z')
  }

  predicate IsAscii(s: string) {
    forall i :: 0 <= i < |s| ==> s[i] as int < 0x80
  }

  // ---------------------------------------------------------------------------
  // encodeURIComponent

  /** The characters `encodeURIComponent` leaves as they are. */
  predicate IsUriUnreserved(c: char) {
    IsAsciiAlnum(c) || c in "-_.!~*'()"
  }

  function UriEncodeChar(c: char): (r: string)
    ensures IsUriUnreserved(c) ==> r == [c]
    ensures !IsUriUnreserved(c) ==> |r| >= 3 && r[0] == '%'
  {
    if IsUriUnreserved(c) then [c] else PercentBytes(Utf8(c))
  }

  /** `encodeURIComponent(s)`. */
  function EncodeUriComponent(s: string): (r: string)
    ensures |r| >= |s|
    ensures |r| == |s| <==> forall i :: 0 <= i < |s| ==> IsUriUnreserved(s[i])
    decreases |s|
  {
    if s == [] then []
    else
      var rest := EncodeUriComponent(s[1..]);
      assert forall i :: 1 <= i < |s| ==> s[i] == s[1..][i - 1];
      UriEncodeChar(s[0]) + rest
  }

  /** `encodeURIComponent` changes a string exactly when the string has a character
      outside its unreserved set. */
  lemma {:induction false} EncodeUriIdentityIff(s: string)
    ensures EncodeUriComponent(s) == s <==> forall i :: 0 <= i < |s| ==> IsUriUnreserved(s[i])
    decreases |s|
  {
    if s != [] && forall i :: 0 <= i < |s| ==> IsUriUnreserved(s[i]) {
      assert forall i :: 0 <= i < |s[1..]| ==> IsUriUnreserved(s[1..][i]);
      EncodeUriIdentityIff(s[1..]);
      assert s == [s[0]] + s[1..];
    }
  }

  // ---------------------------------------------------------------------------
  // The form serializer behind URLSearchParams

  /** The characters the form serializer leaves as they are. */
  predicate IsFormSafe(c: char) {
    IsAsciiAlnum(c) || c == '*' || c == '-' || c == '.' || c == '_'
  }

  function FormEncodeChar(c: char): (r: string)
    ensures IsFormSafe(c) ==> r == [c]
    ensures c == ' ' ==> r == "+"
    ensures !IsFormSafe(c) && c != ' ' ==> |r| >= 3 && r[0] == '%'
  {
    if IsFormSafe(c) then [c] else if c == ' ' then "+" else PercentBytes(Utf8(c))
  }

  /** The encoding `URLSearchParams.toString()` applies to each name and value. */
  function FormEncode(s: string): (r: string)
    ensures |r| >= |s|
    decreases |s|
  {
    if s == [] then [] else FormEncodeChar(s[0]) + FormEncode(s[1..])
  }

  /** Decoding one form-encoded name or value: `+` is a space and `%XX` one byte. */
  function FormDecode(s: string): (r: string)
    ensures |r| <= |s|
    decreases |s|
  {
    if s == [] then []
    else if s[0] == '+' then " " + FormDecode(s[1..])
    else if s[0] == '%' && |s| >= 3 && IsHex(s[1]) && IsHex(s[2]) then
      [(16 * HexValue(s[1]) + HexValue(s[2])) as char] + FormDecode(s[3..])
    else [s[0]] + FormDecode(s[1..])
  }

  lemma DecodeEncodedChar(c: char, rest: string)
    requires c as int < 0x80
    ensures FormDecode(FormEncodeChar(c) + rest) == [c] + FormDecode(rest)
  {
    var e := FormEncodeChar(c);
    if IsFormSafe(c) {
      assert (e + rest)[0] == c && (e + rest)[1..] == rest;
    } else if c == ' ' {
      assert (e + rest)[0] == '+' && (e + rest)[1..] == rest;
    } else {
      assert Utf8(c) == [c as int];
      assert e == PercentByte(c as int) + PercentBytes([]);
      assert (e + rest)[3..] == rest;
      assert (e + rest)[..3] == e;
    }
  }

  /** A decoder undoes the form serializer on ASCII text. */
  lemma {:induction false} FormRoundTrip(s: string)
    requires IsAscii(s)
    ensures FormDecode(FormEncode(s)) == s
    decreases |s|
  {
    if s != [] {
      FormRoundTrip(s[1..]);
      DecodeEncodedChar(s[0], FormEncode(s[1..]));
      assert s == [s[0]] + s[1..];
    }
  }

  /** `encodeURIComponent` only produces ASCII. */
  lemma {:induction false} EncodeUriIsAscii(s: string)
    ensures IsAscii(EncodeUriComponent(s))
    decreases |s|
  {
    if s != [] {
      EncodeUriIsAscii(s[1..]);
      PercentBytesAscii(Utf8(s[0]));
    }
  }

  lemma {:induction false} PercentBytesAscii(bs: seq<nat>)
    requires forall i :: 0 <= i < |bs| ==> bs[i] < 256
    ensures IsAscii(PercentBytes(bs))
    decreases |bs|
  {
    if bs != [] {
      PercentBytesAscii(bs[1..]);
    }
  }

  // ---------------------------------------------------------------------------
  // Parameter lists

  /** A `URLSearchParams` object: its (name, value) pairs in insertion order. */
  type QueryParams = seq<(string, string)>

  function Names(ps: QueryParams): (r: seq<string>)
    ensures |r| == |ps|
    ensures forall i :: 0 <= i < |ps| ==> r[i] == ps[i].0
  {
    seq(|ps|, i requires 0 <= i < |ps| => ps[i].0)
  }

  /** `params.get(name)`: the value of the first pair with that name. */
  function Lookup(ps: QueryParams, name: string): (r: Option<string>)
    ensures r.None? <==> name !in Names(ps)
    ensures r.Some? ==> exists i :: 0 <= i < |ps| && ps[i] == (name, r.value)
    decreases |ps|
  {
    if ps == [] then None
    else if ps[0].0 == name then Some(ps[0].1)
    else
      var r := Lookup(ps[1..], name);
      assert Names(ps) == [ps[0].0] + Names(ps[1..]);
      if r.Some? then
        ghost var i :| 0 <= i < |ps[1..]| && ps[1..][i] == (name, r.value);
        assert ps[i + 1] == (name, r.value);
        r
      else r
  }

  lemma NamesConcat(a: QueryParams, b: QueryParams)
    ensures Names(a + b) == Names(a) + Names(b)
  {
    assert forall i :: 0 <= i < |a| ==> (a + b)[i] == a[i];
    assert forall i :: |a| <= i < |a| + |b| ==> (a + b)[i] == b[i - |a|];
  }

  /** Looking a name up in a concatenation finds it in the first part when it is there,
      and in the second part otherwise. */
  lemma {:induction false} LookupConcat(a: QueryParams, b: QueryParams, name: string)
    ensures name in Names(a) ==> Lookup(a + b, name) == Lookup(a, name)
    ensures name !in Names(a) ==> Lookup(a + b, name) == Lookup(b, name)
    decreases |a|
  {
    if a == [] {
      assert a + b == b;
    } else {
      assert (a + b)[0] == a[0];
      assert (a + b)[1..] == a[1..] + b;
      assert Names(a) == [a[0].0] + Names(a[1..]);
      LookupConcat(a[1..], b, name);
    }
  }

  /** One `if (value) params.append(name, value)`: the pair when the condition holds. */
  function AppendIf(active: bool, name: string, value: string): (ps: QueryParams)
    ensures Names(ps) == (if active then [name] else [])
    ensures active ==> Lookup(ps, name) == Some(value)
  {
    if active then [(name, value)] else []
  }

  /** A pair appended under another name does not change what `get(target)` finds. */
  lemma AppendIfSkips(active: bool, name: string, value: string, rest: QueryParams, target: string)
    requires target != name
    ensures Lookup(AppendIf(active, name, value) + rest, target) == Lookup(rest, target)
  {
    LookupConcat(AppendIf(active, name, value), rest, target);
  }

  /** A pair that is appended is what `get(name)` finds first. */
  lemma AppendIfFinds(active: bool, name: string, value: string, rest: QueryParams)
    ensures active ==> Lookup(AppendIf(active, name, value) + rest, name) == Some(value)
  {
    LookupConcat(AppendIf(active, name, value), rest, name);
  }

  function EncodePair(p: (string, string)): string {
    FormEncode(p.0) + "=" + FormEncode(p.1)
  }

  /** `params.toString()`. */
  function Serialize(ps: QueryParams): (r: string)
    ensures ps == [] ==> r == ""
  {
    Text.Join(seq(|ps|, i requires 0 <= i < |ps| => EncodePair(ps[i])), '&')
  }

  /** What a server reads for parameter `name`: the form-decoded value of its first pair. */
  function Received(ps: QueryParams, name: string): (r: Option<string>)
    ensures r.Some? <==> name in Names(ps)
  {
    match Lookup(ps, name)
    case Some(v) => Some(FormDecode(FormEncode(v)))
    case None => None
  }

  /** ASCII values arrive exactly as they were appended. */
  lemma ReceivedAscii(ps: QueryParams, name: string)
    requires Lookup(ps, name).Some? && IsAscii(Lookup(ps, name).value)
    ensures Received(ps, name) == Lookup(ps, name)
  {
    FormRoundTrip(Lookup(ps, name).value);
  }
}
