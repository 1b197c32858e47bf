/**
 * Object references (CURIEs) as the client turns them into MOO expressions
 * (_curie_to_moo_expr) and into URL path segments (_encode_curie, which is
 * urllib.parse.quote with ':' and '.' kept literal).
 */
module Curie {
  import opened Wrappers
  import opened PyStr
  import opened Errors

  // ---------------------------------------------------------------------
  // CURIE -> MOO expression
  // ---------------------------------------------------------------------

  const EmptyIdentifier := "object identifier must not be empty"

  /** Non-empty, and neither end is whitespace: what strip() leaves of a non-blank text. */
  predicate Trimmed(s: string) {
    s != [] && !IsSpace(s[0]) && !IsSpace(s[|s| - 1])
  }

  /**
   * _curie_to_moo_expr: a blank reference is an error; anything else is
   * stripped and rewritten by Translate.
   */
  function CurieToMooExpr(objectCurie: string): (r: Result<string, Error>)
    ensures r.Failure? <==> Strip(objectCurie) == []
    ensures r.Failure? <==> forall i :: 0 <= i < |objectCurie| ==> IsSpace(objectCurie[i])
    ensures r.Failure? ==> r.error == Plain(EmptyIdentifier)
    ensures r.Success? ==> Trimmed(r.value)
  {
    StripBlank(objectCurie);
    var curie := Strip(objectCurie);
    if curie == [] then Failure(Plain(EmptyIdentifier)) else Success(Translate(curie))
  }

  /**
   * The rewriting rules, first match wins: `#`, `$` and `match("` pass
   * through, `oid:<int>` becomes `#<int>`, `sysobj:<x>` becomes `$<x>`,
   * `uuid:...` becomes a match() call on the whole CURIE, and anything else
   * (including an `oid:` that int() rejects and a bare `sysobj:`) is returned
   * as it is.
   */
  function Translate(curie: string): (r: string)
    requires Trimmed(curie)
    ensures Trimmed(r)
  {
    if StartsWith(curie, "#") || StartsWith(curie, "$") || StartsWith(curie, "match(\"") then curie
    else if StartsWith(curie, "oid:") then
      match ParseInt(curie[4..])
      case Some(n) => OidExpr(n)
      case None => curie
    else if StartsWith(curie, "sysobj:") then
      var ident := curie[7..];
      if ident != [] then SysobjExpr(curie, ident) else curie
    else if StartsWith(curie, "uuid:") then UuidExpr(curie)
    else curie
  }

  /** `#<n>`: the MOO object number n. */
  function OidExpr(n: int): (r: string)
    ensures Trimmed(r) && r[0] == '#'
  {
    var d := IntToString(n);
    assert IsDigit(d[|d| - 1]);
    "#" + d
  }

  /** `$<ident>`, where ident is the non-empty end of a trimmed reference. */
  function SysobjExpr(curie: string, ident: string): (r: string)
    requires Trimmed(curie) && ident != [] && |ident| <= |curie| && ident == curie[|curie| - |ident|..]
    ensures Trimmed(r) && r[0] == '$'
  {
    assert ident[|ident| - 1] == curie[|curie| - 1];
    "$" + ident
  }

  /** `match("<curie>")`. */
  function UuidExpr(curie: string): (r: string)
    ensures Trimmed(r) && StartsWith(r, "match(\"")
  {
    var r := "match(\"" + curie + "\")";
    assert r[..7] == "match(\"";
    r
  }

  /** p is a prefix of p + rest. */
  lemma PrefixOf(p: string, rest: string)
    ensures StartsWith(p + rest, p)
  {
    assert (p + rest)[..|p|] == p;
  }

  /** A text does not start with a prefix whose first character it does not share. */
  lemma NotPrefix(s: string, p: string)
    requires s != [] && p != [] && s[0] != p[0]
    ensures !StartsWith(s, p)
  {
    if |p| <= |s| {
      assert s[..|p|][0] == s[0];
    }
  }

  /** Translating an already translated reference changes nothing. */
  lemma CurieIdempotent(objectCurie: string)
    requires CurieToMooExpr(objectCurie).Success?
    ensures CurieToMooExpr(CurieToMooExpr(objectCurie).value) == CurieToMooExpr(objectCurie)
  {
    var r := CurieToMooExpr(objectCurie).value;
    StripTrimmed(r);
    TranslateIdempotent(Strip(objectCurie));
  }

  lemma TranslateIdempotent(curie: string)
    requires Trimmed(curie)
    ensures Translate(Translate(curie)) == Translate(curie)
  {
    var r := Translate(curie);
    if r[0] == '#' {
      PrefixOf("#", r[1..]);
      assert r == "#" + r[1..];
    } else if r[0] == '$' {
      PrefixOf("$", r[1..]);
      assert r == "$" + r[1..];
    } else if r != curie {
      assert StartsWith(r, "match(\"");
    }
  }

  /** `oid:<n>` with the decimal text of any integer n becomes `#<n>`. */
  lemma OidTranslates(n: int)
    ensures CurieToMooExpr("oid:" + IntToString(n)) == Success("#" + IntToString(n))
  {
    var d := IntToString(n);
    var curie := "oid:" + d;
    assert curie[0] == 'o' && curie[|curie| - 1] == d[|d| - 1];
    StripTrimmed(curie);
    PrefixOf("oid:", d);
    assert curie[4..] == d;
    NotPrefix(curie, "#");
    NotPrefix(curie, "$");
    NotPrefix(curie, "match(\"");
    IntToStringParses(n);
  }

  /**
   * Any `oid:` reference whose tail int() accepts (leading zeros, a sign,
   * underscores between digits, surrounding spaces) becomes `#` followed by
   * the canonical decimal text of that number.
   */
  lemma OidParses(curie: string)
    requires Trimmed(curie) && StartsWith(curie, "oid:") && ParseInt(curie[4..]).Some?
    ensures CurieToMooExpr(curie) == Success("#" + IntToString(ParseInt(curie[4..]).value))
  {
    StripTrimmed(curie);
    assert curie[0] == "oid:"[0];
    NotPrefix(curie, "#");
    NotPrefix(curie, "$");
    NotPrefix(curie, "match(\"");
  }

  /** A reference already written as `#...`, `$...` or `match("...` is passed on, stripped. */
  lemma MooExprPassesThrough(objectCurie: string)
    requires var c := Strip(objectCurie);
      c != [] && (StartsWith(c, "#") || StartsWith(c, "$") || StartsWith(c, "match(\""))
    ensures CurieToMooExpr(objectCurie) == Success(Strip(objectCurie))
  {
  }

  /** An `oid:` reference whose number int() rejects is passed on unchanged. */
  lemma OidFallback(curie: string)
    requires Trimmed(curie) && StartsWith(curie, "oid:") && ParseInt(curie[4..]).None?
    ensures CurieToMooExpr(curie) == Success(curie)
  {
    StripTrimmed(curie);
    assert curie[0] == "oid:"[0];
    NotPrefix(curie, "#");
    NotPrefix(curie, "$");
    NotPrefix(curie, "match(\"");
  }

  /** `sysobj:<x>` becomes `$<x>`; a bare `sysobj:` is passed on unchanged. */
  lemma SysobjTranslates(ident: string)
    requires ident == [] || !IsSpace(ident[|ident| - 1])
    ensures ident != [] ==> CurieToMooExpr("sysobj:" + ident) == Success("$" + ident)
    ensures ident == [] ==> CurieToMooExpr("sysobj:") == Success("sysobj:")
  {
    var curie := "sysobj:" + ident;
    assert curie[0] == 's' && !IsSpace(curie[|curie| - 1]);
    StripTrimmed(curie);
    PrefixOf("sysobj:", ident);
    assert curie[7..] == ident;
    NotPrefix(curie, "#");
    NotPrefix(curie, "$");
    NotPrefix(curie, "match(\"");
    NotPrefix(curie, "oid:");
    if ident == [] {
      assert curie == "sysobj:";
    }
  }

  /** `uuid:<u>` becomes a match() call on the whole reference. */
  lemma UuidTranslates(u: string)
    requires u == [] || !IsSpace(u[|u| - 1])
    ensures CurieToMooExpr("uuid:" + u) == Success("match(\"uuid:" + u + "\")")
  {
    var curie := "uuid:" + u;
    assert curie[0] == 'u' && !IsSpace(curie[|curie| - 1]);
    StripTrimmed(curie);
    PrefixOf("uuid:", u);
    NotPrefix(curie, "#");
    NotPrefix(curie, "$");
    NotPrefix(curie, "match(\"");
    NotPrefix(curie, "oid:");
    NotPrefix(curie, "sysobj:");
    assert "match(\"" + curie + "\")" == "match(\"uuid:" + u + "\")";
  }

  /** A reference starting with none of the six recognised prefixes is passed on, stripped. */
  lemma OtherPassesThrough(objectCurie: string)
    requires Strip(objectCurie) != []
    requires var c := Strip(objectCurie);
      && !StartsWith(c, "#") && !StartsWith(c, "$") && !StartsWith(c, "match(\"")
      && !StartsWith(c, "oid:") && !StartsWith(c, "sysobj:") && !StartsWith(c, "uuid:")
    ensures CurieToMooExpr(objectCurie) == Success(Strip(objectCurie))
  {
  }

  // ---------------------------------------------------------------------
  // Percent-encoding of path segments
  // ---------------------------------------------------------------------

  newtype Byte = x: int | 0 <= x < 256

  /** Characters quote() never escapes: ASCII letters and digits, `_.-~`, plus the extra safe `:` and `.`. */
  predicate IsKept(c: char) {
    ('a' <= c <= 'z') || ('A' <= c <= 'Z') || ('0' <= c <= '9')
    || c == '_' || c == '.' || c == '-' || c == '~' || c == ':'
  }

  /** The UTF-8 encoding of one Unicode scalar value. */
  function Utf8(c: char): (r: seq<Byte>)
    ensures 1 <= |r| <= 4
    ensures (c as int < 0x80) <==> |r| == 1
    ensures |r| == 1 ==> r[0] as int == c as int
  {
    var n := c as int;
    if n < 0x80 then [n as Byte]
    else if n < 0x800 then [(0xC0 + n / 64) as Byte, (0x80 + n % 64) as Byte]
    else if n < 0x10000 then [(0xE0 + n / 4096) as Byte, (0x80 + (n / 64) % 64) as Byte, (0x80 + n % 64) as Byte]
    else [(0xF0 + n / 262144) as Byte, (0x80 + (n / 4096) % 64) as Byte, (0x80 + (n / 64) % 64) as Byte, (0x80 + n % 64) as Byte]
  }

  function Utf8String(s: string): seq<Byte> {
    if s == [] then [] else Utf8(s[0]) + Utf8String(s[1..])
  }

  function HexDigit(d: int): (c: char)
    requires 0 <= d < 16
    ensures IsKept(c)
  {
    if d < 10 then ('0' as int + d) as char else ('A' as int + d - 10) as char
  }

  /** `%XX` with upper-case hexadecimal digits. */
  function PercentByte(b: Byte): (r: string)
    ensures |r| == 3 && r[0] == '%' && IsKept(r[1]) && IsKept(r[2])
  {
    ['%', HexDigit(b as int / 16), HexDigit(b as int % 16)]
  }

  function PercentBytes(bs: seq<Byte>): (r: string)
    ensures |r| == 3 * |bs|
  {
    if bs == [] then [] else PercentByte(bs[0]) + PercentBytes(bs[1..])
  }

  /** One character as quote() writes it. */
  function QuoteChar(c: char): string {
    if IsKept(c) then [c] else PercentBytes(Utf8(c))
  }

  /** urllib.parse.quote(s, safe=":."). */
  function Quote(s: string): (r: string)
    ensures |r| >= |s|
    ensures forall i :: 0 <= i < |r| ==> IsKept(r[i]) || r[i] == '%'
  {
    if s == [] then []
    else
      var head := QuoteChar(s[0]);
      var tail := Quote(s[1..]);
      assert forall i :: 0 <= i < |head| ==> IsKept(head[i]) || head[i] == '%' by {
        if !IsKept(s[0]) { PercentBytesKept(Utf8(s[0])); }
      }
      head + tail
  }

  lemma {:induction false} PercentBytesKept(bs: seq<Byte>)
    ensures forall i :: 0 <= i < |PercentBytes(bs)| ==> IsKept(PercentBytes(bs)[i]) || PercentBytes(bs)[i] == '%'
  {
    if bs != [] {
      PercentBytesKept(bs[1..]);
    }
  }

  /** _encode_curie: the stripped reference, percent-encoded. */
  function EncodeCurie(objectCurie: string): (r: string)
    ensures '/' !in r
  {
    var r := Quote(Strip(objectCurie));
    assert forall i :: 0 <= i < |r| ==> r[i] != '/';
    r
  }

  /** Text made only of kept characters is left exactly as it is; any other character changes it. */
  lemma {:induction false} QuoteIdentity(s: string)
    ensures Quote(s) == s <==> forall i :: 0 <= i < |s| ==> IsKept(s[i])
  {
    if s != [] {
      QuoteIdentity(s[1..]);
      if IsKept(s[0]) {
        assert Quote(s) == [s[0]] + Quote(s[1..]);
        assert s == [s[0]] + s[1..];
        if Quote(s) == s {
          assert Quote(s[1..]) == s[1..];
        }
        if forall i :: 0 <= i < |s| ==> IsKept(s[i]) {
          assert forall i :: 0 <= i < |s[1..]| ==> IsKept(s[1..][i]);
        }
      } else {
        assert |Quote(s)| >= 3 + |s[1..]|;
      }
    }
  }

  // The decoding partner of Quote.

  function HexValue(c: char): Option<int> {
    if '0' <= c <= '9' then Some(c as int - '0' as int)
    else if 'A' <= c <= 'F' then Some(c as int - 'A' as int + 10)
    else None
  }

  /** Percent-decoding to bytes: `%XX` is one byte, a kept character is its own (ASCII) byte. */
  function Unquote(s: string): Option<seq<Byte>> {
    if s == [] then Some([])
    else if s[0] == '%' then
      if |s| < 3 then None
      else
        match (HexValue(s[1]), HexValue(s[2]), Unquote(s[3..]))
        case (Some(hi), Some(lo), Some(rest)) =>
          if 0 <= hi < 16 && 0 <= lo < 16 then Some([(16 * hi + lo) as Byte] + rest) else None
        case _ => None
    else if IsKept(s[0]) then
      match Unquote(s[1..])
      case Some(rest) => Some([s[0] as int as Byte] + rest)
      case None => None
    else None
  }

  lemma HexRoundTrip(d: int)
    requires 0 <= d < 16
    ensures HexValue(HexDigit(d)) == Some(d)
  {
  }

  lemma PercentByteDecodes(b: Byte, t: string, rest: seq<Byte>)
    requires Unquote(t) == Some(rest)
    ensures Unquote(PercentByte(b) + t) == Some([b] + rest)
  {
    var s := PercentByte(b) + t;
    HexRoundTrip(b as int / 16);
    HexRoundTrip(b as int % 16);
    assert s[0] == '%' && s[1] == PercentByte(b)[1] && s[2] == PercentByte(b)[2] && s[3..] == t;
  }

  lemma Assoc<T>(a: seq<T>, b: seq<T>, c: seq<T>)
    ensures a + b + c == a + (b + c)
  {
  }

  lemma {:induction false} PercentBytesDecode(bs: seq<Byte>, t: string, rest: seq<Byte>)
    requires Unquote(t) == Some(rest)
    ensures Unquote(PercentBytes(bs) + t) == Some(bs + rest)
  {
    if bs == [] {
      assert PercentBytes(bs) + t == t;
      assert bs + rest == rest;
    } else {
      PercentBytesDecode(bs[1..], t, rest);
      PercentByteDecodes(bs[0], PercentBytes(bs[1..]) + t, bs[1..] + rest);
      Assoc(PercentByte(bs[0]), PercentBytes(bs[1..]), t);
      Assoc([bs[0]], bs[1..], rest);
      assert [bs[0]] + bs[1..] == bs;
    }
  }

  lemma QuoteCharDecodes(c: char, t: string, rest: seq<Byte>)
    requires Unquote(t) == Some(rest)
    ensures Unquote(QuoteChar(c) + t) == Some(Utf8(c) + rest)
  {
    if IsKept(c) {
      var s := [c] + t;
      assert s[0] == c && s[1..] == t;
    } else {
      PercentBytesDecode(Utf8(c), t, rest);
    }
  }

  /** Decoding a quoted segment gives back the UTF-8 bytes of the original text. */
  lemma {:induction false} QuoteRoundTrip(s: string)
    ensures Unquote(Quote(s)) == Some(Utf8String(s))
  {
    if s == [] {
    } else {
      QuoteRoundTrip(s[1..]);
      QuoteCharDecodes(s[0], Quote(s[1..]), Utf8String(s[1..]));
    }
  }
}
