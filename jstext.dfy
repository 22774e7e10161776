/**
 * The pieces of JavaScript's string semantics that the account code relies on:
 * the `\s` and `\w` character classes, `String.prototype.trim`, `parseInt`,
 * `String(n)` for integers and `Buffer.toString("hex")`.
 */
module JsText {
  import opened Wrappers

  /** A value of a `Uint8Array` / `Buffer` cell. */
  type byte = x: int | 0 <= x < 256

  /** ECMAScript LineTerminator code points: these are the characters `.` in a RegExp never matches. */
  predicate IsLineTerminator(c: char) {
    c == '\n' || c == '\r' || c == '\U{2028}' || c == '\U{2029}'
  }

  /** ECMAScript WhiteSpace or LineTerminator: what `\s` matches and what `trim` strips. */
  predicate IsSpace(c: char) {
    || IsLineTerminator(c)
    || c == ' ' || c == '\t' || c == '\U{000B}' || c == '\U{000C}' || c == '\U{00A0}'
    || c == '\U{1680}' || ('\U{2000}' <= c <= '\U{200A}')
    || c == '\U{202F}' || c == '\U{205F}' || c == '\U{3000}' || c == '\U{FEFF}'
  }

  /** `\w` in a RegExp without the `u` flag. */
  predicate IsWordChar(c: char) {
    ('a' <= c <= 'z') || ('A' <= c <= 'Z') || ('0' <= c <= '9') || c == '_'
  }

  predicate IsLower(c: char) { 'a' <= c <= 'z' }
  predicate IsUpper(c: char) { 'A' <= c <= 'Z' }
  predicate IsDigit(c: char) { '0' <= c <= '9' }

  /** `[0-9a-fA-F]` */
  predicate IsHexChar(c: char) {
    IsDigit(c) || ('a' <= c <= 'f') || ('A' <= c <= 'F')
  }

  predicate AllSpace(s: string) {
    forall k :: 0 <= k < |s| ==> IsSpace(s[k])
  }

  /** `String.prototype.toUpperCase` on one character of `\w` or `\s`: only `a`-`z` change. */
  function ToUpperWordOrSpace(c: char): (u: char)
    ensures IsLower(c) ==> IsUpper(u) && u as int == c as int - 32
    ensures !IsLower(c) ==> u == c
  {
    if IsLower(c) then (c as int - 32) as char else c
  }

  // ---------------------------------------------------------------------------
  // trim

  /** Drops the leading whitespace. */
  function TrimStart(s: string): (r: string)
    ensures |r| <= |s| && s == s[..|s| - |r|] + r
    ensures AllSpace(s[..|s| - |r|])
    ensures r == [] || !IsSpace(r[0])
  {
    if |s| > 0 && IsSpace(s[0]) then
      var r := TrimStart(s[1..]);
      TrimStartStep(s, r);
      r
    else s
  }

  lemma TrimStartStep(s: string, r: string)
    requires |s| > 0 && IsSpace(s[0])
    requires |r| <= |s| - 1 && s[1..] == s[1..][..|s| - 1 - |r|] + r && AllSpace(s[1..][..|s| - 1 - |r|])
    ensures s == s[..|s| - |r|] + r && AllSpace(s[..|s| - |r|])
  {
    var n := |s| - |r|;
    var tail := s[1..][..n - 1];
    assert s[..n] == [s[0]] + tail;
    assert s == [s[0]] + s[1..];
    ConcatAssoc([s[0]], tail, r);
    forall k | 1 <= k < n ensures IsSpace(s[..n][k]) {
      assert s[..n][k] == tail[k - 1];
    }
  }

  /** Text that does not start with whitespace has nothing to drop. */
  lemma TrimStartOfUnpadded(s: string)
    requires s == [] || !IsSpace(s[0])
    ensures TrimStart(s) == s
  {
  }

  /** Drops the trailing whitespace. */
  function TrimEnd(s: string): (r: string)
    ensures |r| <= |s| && s == r + s[|r|..]
    ensures AllSpace(s[|r|..])
    ensures r == [] || !IsSpace(r[|r| - 1])
  {
    if |s| > 0 && IsSpace(s[|s| - 1]) then
      var r := TrimEnd(s[..|s| - 1]);
      TrimEndStep(s, r);
      r
    else s
  }

  lemma TrimEndStep(s: string, r: string)
    requires |s| > 0 && IsSpace(s[|s| - 1])
    requires var init := s[..|s| - 1];
      |r| <= |init| && init == r + init[|r|..] && AllSpace(init[|r|..])
    ensures s == r + s[|r|..] && AllSpace(s[|r|..])
  {
    var init := s[..|s| - 1];
    var back := init[|r|..];
    assert s[|r|..] == back + [s[|s| - 1]];
    assert s == init + [s[|s| - 1]];
    ConcatAssoc(r, back, [s[|s| - 1]]);
    forall k | 0 <= k < |back| ensures IsSpace(s[|r|..][k]) {
      assert s[|r|..][k] == back[k];
    }
  }

  /** `String.prototype.trim`: what is left after stripping whitespace at both ends. */
  function Trim(s: string): (r: string)
    ensures |r| <= |s|
    ensures r == [] || (!IsSpace(r[0]) && !IsSpace(r[|r| - 1]))
  {
    TrimEnd(TrimStart(s))
  }

  lemma {:induction false} TrimStartOfPadded(p: string, r: string)
    requires AllSpace(p)
    requires r == [] || !IsSpace(r[0])
    ensures TrimStart(p + r) == r
  {
    if p != [] {
      assert (p + r)[1..] == p[1..] + r;
      TrimStartOfPadded(p[1..], r);
    } else {
      assert p + r == r;
    }
  }

  lemma {:induction false} TrimEndOfPadded(r: string, q: string)
    requires AllSpace(q)
    requires r == [] || !IsSpace(r[|r| - 1])
    ensures TrimEnd(r + q) == r
  {
    if q != [] {
      assert (r + q)[..|r + q| - 1] == r + q[..|q| - 1];
      TrimEndOfPadded(r, q[..|q| - 1]);
    } else {
      assert r + q == r;
    }
  }

  /** `trim` gives back the one core that whitespace padding surrounds. */
  lemma TrimOfPadded(p: string, r: string, q: string)
    requires AllSpace(p) && AllSpace(q)
    requires r == [] || (!IsSpace(r[0]) && !IsSpace(r[|r| - 1]))
    ensures Trim(p + r + q) == r
  {
    if r == [] {
      assert p + r + q == p + q;
      assert AllSpace(p + q);
      TrimStartOfPadded(p + q, []);
      assert p + q + [] == p + q;
      TrimEndOfPadded([], []);
    } else {
      assert p + r + q == p + (r + q);
      TrimStartOfPadded(p, r + q);
      TrimEndOfPadded(r, q);
    }
  }

  lemma AllSpaceConcat(a: string, b: string)
    requires AllSpace(a) && AllSpace(b)
    ensures AllSpace(a + b)
  {
    forall k | 0 <= k < |a + b| ensures IsSpace((a + b)[k]) {
      if k < |a| { assert (a + b)[k] == a[k]; } else { assert (a + b)[k] == b[k - |a|]; }
    }
  }

  /** Every string is its trim with whitespace around it. */
  lemma TrimSplits(s: string) returns (front: string, back: string)
    ensures AllSpace(front) && AllSpace(back)
    ensures s == front + Trim(s) + back
  {
    var t := TrimStart(s);
    var r := TrimEnd(t);
    front, back := s[..|s| - |t|], t[|r|..];
    ConcatAssoc(front, r, back);
  }

  lemma ConcatAssoc(a: string, b: string, c: string)
    ensures a + (b + c) == a + b + c
  {
  }

  lemma SeqRegroup(a: string, b: string, c: string, d: string, e: string)
    ensures a + (b + c + d) + e == (a + b) + c + (d + e)
  {
  }

  /** Surrounding a string with more whitespace does not change what `trim` returns. */
  lemma {:induction false} TrimIgnoresPadding(p: string, s: string, q: string)
    requires AllSpace(p) && AllSpace(q)
    ensures Trim(p + s + q) == Trim(s)
  {
    var front, back := TrimSplits(s);
    var t := Trim(s);
    var p', q' := p + front, back + q;
    AllSpaceConcat(p, front);
    AllSpaceConcat(back, q);
    assert p + s + q == p' + t + q' by {
      assert s == front + t + back;
      SeqRegroup(p, front, t, back, q);
    }
    TrimOfPadded(p', t, q');
  }

  /** A string is its own trim exactly when it neither starts nor ends with whitespace. */
  lemma TrimIdentity(s: string)
    ensures Trim(s) == s <==> (s == [] || (!IsSpace(s[0]) && !IsSpace(s[|s| - 1])))
  {
    if s == [] || (!IsSpace(s[0]) && !IsSpace(s[|s| - 1])) {
      TrimOfPadded([], s, []);
      assert [] + s + [] == s;
    }
  }

  // ---------------------------------------------------------------------------
  // String(n) and parseInt

  function DecimalDigit(d: int): (c: char)
    requires 0 <= d < 10
    ensures IsDigit(c)
  {
    "0123456789"[d]
  }

  /** `String(n)` for a non-negative integer. */
  function NatToString(n: nat): (s: string)
    ensures |s| > 0 && forall k :: 0 <= k < |s| ==> IsDigit(s[k])
    ensures |s| > 1 ==> s[0] != '0'
  {
    if n < 10 then [DecimalDigit(n)] else NatToString(n / 10) + [DecimalDigit(n % 10)]
  }

  /** `String(n)` for an integer. */
  function IntToString(n: int): (s: string)
    ensures |s| > 0
    ensures n < 0 <==> s[0] == '-'
  {
    if n < 0 then "-" + NatToString(-n) else NatToString(n)
  }

  /** The value of a character as a digit, or -1 when it is none (`parseInt` accepts 0-9, a-z, A-Z). */
  function DigitValue(c: char): (v: int)
    ensures -1 <= v < 36
    ensures IsDigit(c) ==> v == c as int - '0' as int
  {
    if IsDigit(c) then c as int - '0' as int
    else if 'a' <= c <= 'z' then c as int - 'a' as int + 10
    else if 'A' <= c <= 'Z' then c as int - 'A' as int + 10
    else -1
  }

  predicate IsDigitIn(c: char, radix: int) {
    0 <= DigitValue(c) < radix
  }

  /** The length of the longest prefix made of digits of the radix. */
  function DigitRun(s: string, radix: int): (n: nat)
    ensures n <= |s|
    ensures forall k :: 0 <= k < n ==> IsDigitIn(s[k], radix)
    ensures n < |s| ==> !IsDigitIn(s[n], radix)
  {
    if |s| > 0 && IsDigitIn(s[0], radix) then 1 + DigitRun(s[1..], radix) else 0
  }

  /** The value of a run of digits, most significant first. */
  function DigitsValue(s: string, radix: int): int
    requires forall k :: 0 <= k < |s| ==> IsDigitIn(s[k], radix)
  {
    if s == [] then 0 else DigitsValue(s[..|s| - 1], radix) * radix + DigitValue(s[|s| - 1])
  }

  /**
   * `parseInt(s)` with no radix: leading whitespace is skipped, one sign is read, a `0x`/`0X`
   * prefix switches to base 16, and the longest run of digits is read. `None` is `NaN`.
   * Values too large for a double are not modelled.
   */
  function ParseInt(s: string): (r: Option<int>)
  {
    var t := TrimStart(s);
    if |t| > 0 && t[0] == '-' then
      match ParseMagnitude(t[1..])
      case None => None
      case Some(v) => Some(-v)
    else if |t| > 0 && t[0] == '+' then ParseMagnitude(t[1..])
    else ParseMagnitude(t)
  }

  /** Text that starts with neither whitespace, a sign nor a digit parses to NaN. */
  lemma ParseIntRejectsNonDigit(s: string)
    requires |s| > 0 && !IsSpace(s[0]) && s[0] != '-' && s[0] != '+' && !IsDigitIn(s[0], 10)
    ensures ParseInt(s) == None
  {
    TrimStartOfUnpadded(s);
    assert DigitRun(s, 10) == 0;
  }

  /** The unsigned part of `parseInt`: an optional `0x`/`0X` prefix, then the longest run of digits. */
  function ParseMagnitude(u: string): (r: Option<int>)
    ensures r.Some? ==> r.value >= 0
  {
    var hex := |u| >= 2 && u[0] == '0' && (u[1] == 'x' || u[1] == 'X');
    var radix := if hex then 16 else 10;
    var body := if hex then u[2..] else u;
    var n := DigitRun(body, radix);
    if n == 0 then None else DigitsValueNonNegative(body[..n], radix); Some(DigitsValue(body[..n], radix))
  }

  lemma {:induction false} DigitsValueNonNegative(s: string, radix: int)
    requires radix >= 0 && forall k :: 0 <= k < |s| ==> IsDigitIn(s[k], radix)
    ensures DigitsValue(s, radix) >= 0
  {
    if s != [] {
      var init := s[..|s| - 1];
      assert forall k :: 0 <= k < |init| ==> init[k] == s[k];
      DigitsValueNonNegative(init, radix);
      MulNonNegative(DigitsValue(init, radix), radix);
    }
  }

  lemma MulNonNegative(a: int, b: int)
    requires a >= 0 && b >= 0
    ensures a * b >= 0
  {
  }

  lemma {:induction false} NatToStringValue(n: nat)
    ensures forall k :: 0 <= k < |NatToString(n)| ==> IsDigitIn(NatToString(n)[k], 10)
    ensures DigitsValue(NatToString(n), 10) == n
  {
    var s := NatToString(n);
    assert forall k :: 0 <= k < |s| ==> IsDigitIn(s[k], 10) by {
      forall k | 0 <= k < |s| ensures IsDigitIn(s[k], 10) { assert IsDigit(s[k]); }
    }
    if n >= 10 {
      var init := NatToString(n / 10);
      NatToStringValue(n / 10);
      assert s == init + [DecimalDigit(n % 10)];
      assert s[..|s| - 1] == init;
      DecimalDigitValue(n % 10);
      assert DigitsValue(s, 10) == DigitsValue(init, 10) * 10 + n % 10;
    } else {
      DecimalDigitValue(n);
    }
  }

  lemma DecimalDigitValue(d: int)
    requires 0 <= d < 10
    ensures DigitValue(DecimalDigit(d)) == d
  {
    assert "0123456789"[d] as int == '0' as int + d;
  }

  /** Decimal digits alone are read as their value. */
  lemma ParseMagnitudeOfDigits(d: string)
    requires |d| > 0 && forall k :: 0 <= k < |d| ==> IsDigit(d[k])
    ensures ParseMagnitude(d) == Some(DigitsValue(d, 10))
  {
    assert !(|d| >= 2 && d[0] == '0' && (d[1] == 'x' || d[1] == 'X')) by {
      if |d| >= 2 { assert IsDigit(d[1]); }
    }
    assert forall k :: 0 <= k < |d| ==> IsDigitIn(d[k], 10);
    assert DigitRun(d, 10) == |d|;
    assert d[..|d|] == d;
  }

  /** `parseInt(String(n)) === n`: the decimal rendering of an integer reads back as that integer. */
  lemma ParseIntOfIntToString(n: int)
    ensures ParseInt(IntToString(n)) == Some(n)
  {
    var m: nat := if n < 0 then -n else n;
    var d := NatToString(m);
    NatToStringValue(m);
    ParseMagnitudeOfDigits(d);
    var s := IntToString(n);
    assert !IsSpace(s[0]);
    TrimStartOfUnpadded(s);
    if n < 0 {
      assert s[1..] == d;
    }
  }

  // ---------------------------------------------------------------------------
  // Buffer.toString("hex")

  function HexDigit(d: int): (c: char)
    requires 0 <= d < 16
    ensures IsHexChar(c)
  {
    "0123456789abcdef"[d]
  }

  /** `Buffer.from(bytes).toString("hex")`: two lower-case hexadecimal digits per byte. */
  function HexEncode(bytes: seq<byte>): (s: string)
    ensures |s| == 2 * |bytes|
    ensures forall k :: 0 <= k < |s| ==> IsHexChar(s[k])
  {
    if bytes == [] then []
    else [HexDigit(bytes[0] / 16), HexDigit(bytes[0] % 16)] + HexEncode(bytes[1..])
  }

  /** Each hexadecimal digit is read back as the value it was written from. */
  lemma HexDigitValue(d: int)
    requires 0 <= d < 16
    ensures DigitValue(HexDigit(d)) == d
  {
    var digits := "0123456789abcdef";
    assert digits[d] == HexDigit(d);
    if d < 10 {
      assert digits[d] as int == '0' as int + d;
    } else {
      assert digits[d] as int == 'a' as int + d - 10;
    }
  }

  function HexValue(c: char): (v: int)
    requires IsHexChar(c)
    ensures 0 <= v < 16
  {
    DigitValue(c)
  }

  /** Reads pairs of hexadecimal digits back into bytes. */
  function HexDecode(s: string): (bytes: seq<byte>)
    requires |s| % 2 == 0
    requires forall k :: 0 <= k < |s| ==> IsHexChar(s[k])
    ensures 2 * |bytes| == |s|
  {
    if s == [] then []
    else
      var b: byte := HexValue(s[0]) * 16 + HexValue(s[1]);
      [b] + HexDecode(s[2..])
  }

  /** The two digits `HexEncode` writes for one byte are read back as that byte. */
  lemma HexPairValue(b: byte)
    ensures HexValue(HexDigit(b as int / 16)) * 16 + HexValue(HexDigit(b as int % 16)) == b as int
  {
    HexDigitValue(b as int / 16);
    HexDigitValue(b as int % 16);
  }

  /** Decoding the hex of some bytes gives the bytes back. */
  lemma {:induction false} HexRoundTrip(bytes: seq<byte>)
    ensures HexDecode(HexEncode(bytes)) == bytes
  {
    if bytes != [] {
      var b := bytes[0];
      var s := HexEncode(bytes);
      var rest := HexEncode(bytes[1..]);
      assert s == [HexDigit(b / 16), HexDigit(b % 16)] + rest;
      assert s[0] == HexDigit(b / 16) && s[1] == HexDigit(b % 16) && s[2..] == rest;
      HexPairValue(b);
      assert HexValue(s[0]) * 16 + HexValue(s[1]) == b;
      HexRoundTrip(bytes[1..]);
    }
  }

  // ---------------------------------------------------------------------------
  // String.prototype.split with a one-character separator

  /** `s.split(sep)`: the pieces between separators, empty pieces included; never an empty list. */
  function Split(s: string, sep: char): (fields: seq<string>)
    ensures |fields| >= 1
    ensures forall k :: 0 <= k < |fields| ==> sep !in fields[k]
    decreases |s|
  {
    if s == [] then [[]]
    else
      var rest := Split(s[1..], sep);
      if s[0] == sep then [[]] + rest
      else [[s[0]] + rest[0]] + rest[1..]
  }

  /** `fields.join(sep)` */
  function Join(fields: seq<string>, sep: char): string
    requires |fields| >= 1
  {
    if |fields| == 1 then fields[0] else fields[0] + [sep] + Join(fields[1..], sep)
  }

  /** Joining the pieces of a split gives the string back. */
  lemma {:induction false} JoinSplit(s: string, sep: char)
    ensures Join(Split(s, sep), sep) == s
    decreases |s|
  {
    if s != [] {
      var rest := Split(s[1..], sep);
      JoinSplit(s[1..], sep);
      if s[0] != sep {
        var f := Split(s, sep);
        assert f[1..] == rest[1..];
        if |rest| > 1 {
          assert Join(rest, sep) == rest[0] + [sep] + Join(rest[1..], sep);
        }
      } else {
        assert ([[]] + rest)[1..] == rest;
      }
    }
  }

  /** Splitting pieces joined by a separator they do not contain gives the pieces back. */
  lemma {:induction false} SplitJoin(fields: seq<string>, sep: char)
    requires |fields| >= 1
    requires forall k :: 0 <= k < |fields| ==> sep !in fields[k]
    ensures Split(Join(fields, sep), sep) == fields
    decreases |fields|, |fields[0]|
  {
    var head := fields[0];
    if head == [] {
      if |fields| > 1 {
        SplitJoin(fields[1..], sep);
        assert Join(fields, sep) == [sep] + Join(fields[1..], sep);
        assert ([sep] + Join(fields[1..], sep))[1..] == Join(fields[1..], sep);
        assert [[]] + fields[1..] == fields;
      }
    } else {
      var shorter := [head[1..]] + fields[1..];
      assert head[0] != sep by { assert head[0] in head; }
      assert shorter[1..] == fields[1..];
      assert forall k :: 1 <= k < |shorter| ==> shorter[k] == fields[k];
      SplitJoin(shorter, sep);
      var j := Join(fields, sep);
      if |fields| == 1 {
        assert j[1..] == Join(shorter, sep);
      } else {
        assert j == [head[0]] + (head[1..] + [sep] + Join(fields[1..], sep));
        assert j[1..] == Join(shorter, sep);
      }
      assert [head[0]] + head[1..] == head;
      assert Split(j, sep) == [[head[0]] + Split(j[1..], sep)[0]] + Split(j[1..], sep)[1..];
      assert [head] + shorter[1..] == fields;
    }
  }
}
