/**
 * The MOO literal encoder (_escape_moo_string and _json_to_moo_literal), and a
 * reader for the literal syntax it emits. The reader is the encoder's partner:
 * every encoded value reads back as the MOO value the server sees, where a
 * dict becomes a list of {key, value} pairs and None/booleans become integers.
 */
module Literal {
  import opened Wrappers
  import opened PyStr
  import opened Json

  // ---------------------------------------------------------------------
  // Strings
  // ---------------------------------------------------------------------

  /** One character of a MOO string body: backslash and double quote get a backslash in front. */
  function EscapeChar(c: char): string {
    if c == '\\' || c == '"' then ['\\', c] else [c]
  }

  /** The character-by-character escaping of a string body. */
  function Escape(s: string): string {
    if s == [] then [] else EscapeChar(s[0]) + Escape(s[1..])
  }

  lemma {:induction false} EscapeAppend(a: string, b: string)
    ensures Escape(a + b) == Escape(a) + Escape(b)
  {
    if a == [] {
      assert a + b == b;
    } else {
      assert (a + b)[0] == a[0] && (a + b)[1..] == a[1..] + b;
      EscapeAppend(a[1..], b);
    }
  }

  /** _escape_moo_string: replace `\` by `\\`, then `"` by `\"`, and wrap in double quotes. */
  function QuoteString(s: string): (r: string)
    ensures r == "\"" + Escape(s) + "\""
  {
    EscapeReplaces(s);
    "\"" + ReplaceChar(ReplaceChar(s, '\\', "\\\\"), '"', "\\\"") + "\""
  }

  /** The two successive replacements of the source equal the character-wise escaping. */
  lemma {:induction false} EscapeReplaces(s: string)
    ensures ReplaceChar(ReplaceChar(s, '\\', "\\\\"), '"', "\\\"") == Escape(s)
  {
    if s != [] {
      var head := if s[0] == '\\' then "\\\\" else [s[0]];
      var once := ReplaceChar(s, '\\', "\\\\");
      assert once == head + ReplaceChar(s[1..], '\\', "\\\\");
      ReplaceCharAppend(head, ReplaceChar(s[1..], '\\', "\\\\"), '"', "\\\"");
      EscapeReplaces(s[1..]);
      assert ReplaceChar(head, '"', "\\\"") == EscapeChar(s[0]) by {
        if s[0] == '\\' {
          assert head == ['\\'] + ['\\'];
          ReplaceCharAppend(['\\'], ['\\'], '"', "\\\"");
        }
      }
    }
  }

  // ---------------------------------------------------------------------
  // The encoder
  // ---------------------------------------------------------------------

  /** _json_to_moo_literal. */
  function Encode(v: JsonValue): (r: string)
    decreases v, 1
    ensures r != []
    ensures r[0] == '-' || IsDigit(r[0]) || r[0] == '"' || r[0] == '{'
  {
    match v
    case JNull => "0"
    case JBool(b) => if b then "1" else "0"
    case JInt(i) => IntToString(i)
    case JStr(s) => QuoteString(s)
    case JList(items) =>
      var elements := Join(", ", ElementLiterals(v));
      var inside := if elements != [] then " " + elements + " " else "";
      "{" + inside + "}"
    case JDict(entries) =>
      var inside := Join(", ", PairLiterals(v));
      var inner := if inside != [] then " " + inside + " " else "";
      "{" + inner + "}"
  }

  /** The literals of a list's elements, in order. */
  function ElementLiterals(v: JsonValue): (r: seq<string>)
    requires v.JList?
    decreases v, 0
    ensures |r| == |v.items|
  {
    seq(|v.items|, k requires 0 <= k < |v.items| => Encode(v.items[k]))
  }

  /** The `{key, value}` literal of one dict entry. */
  function PairLiteral(key: string, value: JsonValue): (r: string)
    decreases value, 2
    ensures r != [] && r[0] == '{'
  {
    "{" + QuoteString(key) + ", " + Encode(value) + "}"
  }

  /** The pair literals of a dict's entries, in insertion order. */
  function PairLiterals(v: JsonValue): (r: seq<string>)
    requires v.JDict?
    decreases v, 0
    ensures |r| == |v.entries|
  {
    seq(|v.entries|, k requires 0 <= k < |v.entries| => PairLiteral(v.entries[k].0, v.entries[k].1))
  }

  /**
   * The loop of the dict branch that appends one pair literal per entry;
   * it builds exactly the pair literals the encoder joins.
   */
  method CollectPairs(entries: seq<(string, JsonValue)>) returns (pairs: seq<string>)
    ensures pairs == PairLiterals(JDict(entries))
  {
    pairs := [];
    var k := 0;
    while k < |entries|
      invariant k <= |entries|
      invariant pairs == PairLiterals(JDict(entries))[..k]
    {
      pairs := pairs + [PairLiteral(entries[k].0, entries[k].1)];
      k := k + 1;
    }
  }

  /** An empty list encodes as `{}`; any other list as `{ e1, ..., en }`. */
  lemma EncodeList(items: seq<JsonValue>)
    ensures items == [] ==> Encode(JList(items)) == "{}"
    ensures items != [] ==> Encode(JList(items)) == "{ " + Join(", ", ElementLiterals(JList(items))) + " }"
  {
  }

  /** An empty dict encodes as `{}`; any other dict as `{ {k1, v1}, ..., {kn, vn} }`. */
  lemma EncodeDict(entries: seq<(string, JsonValue)>)
    ensures entries == [] ==> Encode(JDict(entries)) == "{}"
    ensures entries != [] ==> Encode(JDict(entries)) == "{ " + Join(", ", PairLiterals(JDict(entries))) + " }"
  {
  }

  // ---------------------------------------------------------------------
  // What the server reads
  // ---------------------------------------------------------------------

  /** The MOO values a literal of the encoder denotes. */
  datatype MooValue = MInt(n: int) | MStr(text: string) | MList(elems: seq<MooValue>)

  /** The MOO value each JSON value is meant to become: a dict is a list of {key, value} pairs. */
  function ToMoo(v: JsonValue): (r: MooValue)
    ensures v.JList? ==> r.MList? && |r.elems| == |v.items|
    ensures v.JDict? ==> r.MList? && |r.elems| == |v.entries|
  {
    match v
    case JNull => MInt(0)
    case JBool(b) => MInt(if b then 1 else 0)
    case JInt(i) => MInt(i)
    case JStr(s) => MStr(s)
    case JList(items) => MList(seq(|items|, k requires 0 <= k < |items| => ToMoo(items[k])))
    case JDict(entries) =>
      MList(seq(|entries|, k requires 0 <= k < |entries| => MList([MStr(entries[k].0), ToMoo(entries[k].1)])))
  }

  function SkipSpaces(s: string): (r: string)
    ensures |r| <= |s|
  {
    if s != [] && s[0] == ' ' then SkipSpaces(s[1..]) else s
  }

  /** The length of the longest run of digits at the start of s. */
  function DigitPrefix(s: string): (k: nat)
    ensures k <= |s| && AllDigits(s[..k])
    ensures k < |s| ==> !IsDigit(s[k])
  {
    if s != [] && IsDigit(s[0]) then
      var k := 1 + DigitPrefix(s[1..]);
      assert s[..k] == [s[0]] + s[1..][..k - 1];
      k
    else 0
  }

  /** The body of a string literal up to its closing quote: its text and what follows it. */
  function ReadString(s: string): (r: Option<(string, string)>)
    ensures r.Some? ==> |r.value.1| < |s|
  {
    if s == [] then None
    else if s[0] == '"' then Some(([], s[1..]))
    else if s[0] == '\\' then
      if |s| < 2 then None
      else
        match ReadString(s[2..])
        case None => None
        case Some((t, rest)) => Some(([s[1]] + t, rest))
    else
      match ReadString(s[1..])
      case None => None
      case Some((t, rest)) => Some(([s[0]] + t, rest))
  }

  /** Reads one literal from the front of s: the value and the text after it. */
  function ReadValue(s: string): (r: Option<(MooValue, string)>)
    decreases |s|, 0
    ensures r.Some? ==> |r.value.1| < |s|
  {
    if s == [] then None
    else if s[0] == '"' then
      match ReadString(s[1..])
      case None => None
      case Some((t, rest)) => Some((MStr(t), rest))
    else if s[0] == '{' then
      var t := SkipSpaces(s[1..]);
      if t != [] && t[0] == '}' then Some((MList([]), t[1..]))
      else ReadElements(t, [])
    else if s[0] == '-' then
      var k := DigitPrefix(s[1..]);
      if k == 0 then None else Some((MInt(-(DigitsValue(s[1..][..k]) as int)), s[1 + k..]))
    else
      var k := DigitPrefix(s);
      if k == 0 then None else Some((MInt(DigitsValue(s[..k])), s[k..]))
  }

  /** Reads the elements of a non-empty list literal up to its closing brace. */
  function ReadElements(s: string, acc: seq<MooValue>): (r: Option<(MooValue, string)>)
    decreases |s|, 1
    ensures r.Some? ==> |r.value.1| < |s|
  {
    match ReadValue(s)
    case None => None
    case Some((v, rest)) =>
      var t := SkipSpaces(rest);
      if t != [] && t[0] == ',' then ReadElements(SkipSpaces(t[1..]), acc + [v])
      else if t != [] && t[0] == '}' then Some((MList(acc + [v]), t[1..]))
      else None
  }

  // ---------------------------------------------------------------------
  // Round trip
  // ---------------------------------------------------------------------

  /** The literal `lit` reads back as m whatever follows it, unless a digit continues it. */
  ghost predicate Denotes(lit: string, m: MooValue) {
    && lit != [] && lit[0] != ' ' && lit[0] != '}'
    && forall after: string | after == [] || !IsDigit(after[0]) :: ReadValue(lit + after) == Some((m, after))
  }

  lemma SkipNone(x: string)
    requires x != [] && x[0] != ' '
    ensures SkipSpaces(x) == x && SkipSpaces(" " + x) == x
  {
    assert (" " + x)[1..] == x;
  }

  /** The reader skips the space before a closing brace. */
  lemma SkipToClose(rest: string)
    ensures SkipSpaces(" }" + rest) == "}" + rest
  {
    assert (" }" + rest)[1..] == "}" + rest;
    SkipNone("}" + rest);
  }

  /** A list literal whose first element follows `{ `: the reader moves on to the elements. */
  lemma ReadOpen(x: string)
    requires x != [] && x[0] != ' ' && x[0] != '}'
    ensures ReadValue("{" + (" " + x)) == ReadElements(x, [])
  {
    assert ("{" + (" " + x))[1..] == " " + x;
    SkipNone(x);
  }

  /** A list literal with no space after its opening brace: the reader moves on to the elements. */
  lemma ReadBrace(x: string)
    requires x != [] && x[0] != ' ' && x[0] != '}'
    ensures ReadValue("{" + x) == ReadElements(x, [])
  {
    assert ("{" + x)[1..] == x;
    SkipNone(x);
  }

  /** The reader closes a list when the next element is followed by `}`. */
  lemma ReadLast(s: string, acc: seq<MooValue>, v: MooValue, tail: string, rest: string)
    requires ReadValue(s) == Some((v, tail))
    requires SkipSpaces(tail) == "}" + rest
    ensures ReadElements(s, acc) == Some((MList(acc + [v]), rest))
  {
    assert ("}" + rest)[0] == '}' && ("}" + rest)[1..] == rest;
  }

  /** The reader continues with the next element when the current one is followed by `, `. */
  lemma ReadNext(s: string, acc: seq<MooValue>, v: MooValue, more: string)
    requires ReadValue(s) == Some((v, ", " + more))
    requires more != [] && more[0] != ' '
    ensures ReadElements(s, acc) == ReadElements(more, acc + [v])
  {
    var t := ", " + more;
    assert t[0] == ',' && t[1..] == " " + more;
    SkipNone(more);
    SkipNone(t);
  }

  lemma Braced(body: string, rest: string)
    ensures "{" + (" " + body + " ") + "}" + rest == "{" + (" " + (body + " }" + rest))
  {
  }

  lemma Regroup(x: string, y: string, z: string)
    ensures x + y + z == x + (y + z)
  {
  }

  /** Each literal of a run denotes the value at the same position. */
  ghost predicate AllDenote(lits: seq<string>, vals: seq<MooValue>)
    decreases lits
  {
    && |lits| == |vals|
    && (lits != [] ==> Denotes(lits[0], vals[0]) && AllDenote(lits[1..], vals[1..]))
  }

  lemma {:induction false} DenoteEach(lits: seq<string>, vals: seq<MooValue>)
    requires |lits| == |vals|
    requires forall k :: 0 <= k < |lits| ==> Denotes(lits[k], vals[k])
    ensures AllDenote(lits, vals)
    decreases lits
  {
    if lits != [] {
      assert Denotes(lits[0], vals[0]);
      forall k | 0 <= k < |lits| - 1
        ensures Denotes(lits[1..][k], vals[1..][k])
      {
        assert Denotes(lits[k + 1], vals[k + 1]);
      }
      DenoteEach(lits[1..], vals[1..]);
    }
  }

  /**
   * Elements joined by `, ` and closed by ` }` read back as the list of what
   * each denotes, after the values already read.
   */
  lemma {:induction false} ReadJoined(lits: seq<string>, vals: seq<MooValue>, acc: seq<MooValue>, rest: string)
    requires lits != [] && AllDenote(lits, vals)
    requires rest == [] || !IsDigit(rest[0])
    ensures ReadElements(Join(", ", lits) + " }" + rest, acc) == Some((MList(acc + vals), rest))
    decreases lits
  {
    if |lits| == 1 {
      ReadOnly(lits, vals, acc, rest);
    } else {
      ReadFirst(lits, vals, acc, rest);
      ReadJoined(lits[1..], vals[1..], acc + [vals[0]], rest);
      MoveHead(acc, vals);
    }
  }

  lemma MoveHead(acc: seq<MooValue>, vals: seq<MooValue>)
    requires vals != []
    ensures acc + [vals[0]] + vals[1..] == acc + vals
  {
  }

  /** The last element of a list literal, then ` }`. */
  lemma ReadOnly(lits: seq<string>, vals: seq<MooValue>, acc: seq<MooValue>, rest: string)
    requires |lits| == 1 && AllDenote(lits, vals)
    requires rest == [] || !IsDigit(rest[0])
    ensures ReadElements(Join(", ", lits) + " }" + rest, acc) == Some((MList(acc + vals), rest))
  {
    var lit := lits[0];
    assert Join(", ", lits) == lit;
    Regroup(lit, " }", rest);
    assert ReadValue(lit + (" }" + rest)) == Some((vals[0], " }" + rest));
    SkipToClose(rest);
    ReadLast(lit + (" }" + rest), acc, vals[0], " }" + rest, rest);
    assert vals == [vals[0]];
  }

  /** An element followed by `, `: the reader goes on with the next one. */
  lemma ReadFirst(lits: seq<string>, vals: seq<MooValue>, acc: seq<MooValue>, rest: string)
    requires |lits| > 1 && AllDenote(lits, vals)
    ensures ReadElements(Join(", ", lits) + " }" + rest, acc)
         == ReadElements(Join(", ", lits[1..]) + " }" + rest, acc + [vals[0]])
  {
    var more := Join(", ", lits[1..]) + " }" + rest;
    JoinedHead(lits, rest);
    assert ReadValue(lits[0] + (", " + more)) == Some((vals[0], ", " + more));
    assert Denotes(lits[1..][0], vals[1..][0]);
    assert more[0] == lits[1][0];
    ReadNext(lits[0] + (", " + more), acc, vals[0], more);
  }

  lemma JoinedHead(lits: seq<string>, rest: string)
    requires |lits| > 1
    ensures Join(", ", lits) + " }" + rest == lits[0] + (", " + (Join(", ", lits[1..]) + " }" + rest))
  {
    var j := Join(", ", lits[1..]);
    assert Join(", ", lits) == lits[0] + ", " + j;
    Regroup5(lits[0], ", ", j, " }", rest);
  }

  lemma Regroup5(a: string, b: string, c: string, d: string, e: string)
    ensures a + b + c + d + e == a + (b + (c + d + e))
  {
  }

  lemma {:induction false} ReadEscaped(s: string, rest: string)
    ensures ReadString(Escape(s) + "\"" + rest) == Some((s, rest))
  {
    if s == [] {
      assert Escape(s) + "\"" + rest == "\"" + rest;
    } else {
      var tail := Escape(s[1..]) + "\"" + rest;
      ReadEscaped(s[1..], rest);
      var input := Escape(s) + "\"" + rest;
      assert input == EscapeChar(s[0]) + tail;
      assert [s[0]] + s[1..] == s;
      if s[0] == '\\' || s[0] == '"' {
        assert input[0] == '\\' && input[1] == s[0] && input[2..] == tail;
      } else {
        assert input[0] == s[0] && input[1..] == tail;
      }
    }
  }

  lemma ReadKey(key: string, u: string)
    ensures ReadValue(QuoteString(key) + u) == Some((MStr(key), u))
  {
    var body := Escape(key) + "\"" + u;
    Regroup(Escape(key), "\"", u);
    Regroup("\"", Escape(key) + "\"", u);
    Regroup("\"", Escape(key), "\"");
    assert QuoteString(key) + u == "\"" + body;
    assert ("\"" + body)[1..] == body;
    ReadEscaped(key, u);
  }

  lemma {:induction false} DigitPrefixOf(d: string, rest: string)
    requires AllDigits(d)
    requires rest == [] || !IsDigit(rest[0])
    ensures DigitPrefix(d + rest) == |d|
  {
    if d == [] {
      assert d + rest == rest;
    } else {
      assert (d + rest)[1..] == d[1..] + rest;
      DigitPrefixOf(d[1..], rest);
    }
  }

  lemma ReadNat(n: nat, rest: string)
    requires rest == [] || !IsDigit(rest[0])
    ensures ReadValue(NatToString(n) + rest) == Some((MInt(n), rest))
  {
    var d := NatToString(n);
    DigitPrefixOf(d, rest);
    assert (d + rest)[..|d|] == d && (d + rest)[|d|..] == rest;
  }

  lemma ReadNegative(n: nat, rest: string)
    requires rest == [] || !IsDigit(rest[0])
    ensures ReadValue("-" + NatToString(n) + rest) == Some((MInt(-(n as int)), rest))
  {
    var d := NatToString(n);
    var s := "-" + d + rest;
    assert s[1..] == d + rest;
    DigitPrefixOf(d, rest);
    assert (d + rest)[..|d|] == d && s[1 + |d|..] == rest;
  }

  /** A `{key, value}` literal reads back as the pair list, given that the value's literal reads back. */
  lemma ReadPairOf(key: string, lit: string, m: MooValue, after: string)
    requires Denotes(lit, m)
    ensures ReadValue("{" + QuoteString(key) + ", " + lit + "}" + after) == Some((MList([MStr(key), m]), after))
  {
    var more := lit + ("}" + after);
    PairRegroup(QuoteString(key), lit, after);
    ReadPairHead(key, more);
    ReadPairTail(key, lit, m, after);
  }

  lemma PairRegroup(q: string, lit: string, after: string)
    ensures "{" + q + ", " + lit + "}" + after == "{" + (q + (", " + (lit + ("}" + after))))
  {
  }

  /** After `{` and a key, the reader moves on to the value with the key read. */
  lemma ReadPairHead(key: string, more: string)
    requires more != [] && more[0] != ' '
    ensures ReadValue("{" + (QuoteString(key) + (", " + more))) == ReadElements(more, [MStr(key)])
  {
    var t := QuoteString(key) + (", " + more);
    ReadKey(key, ", " + more);
    ReadBrace(t);
    ReadNext(t, [], MStr(key), more);
    assert [] + [MStr(key)] == [MStr(key)];
  }

  /** The value of a pair and its closing brace complete the pair list. */
  lemma ReadPairTail(key: string, lit: string, m: MooValue, after: string)
    requires Denotes(lit, m)
    ensures ReadElements(lit + ("}" + after), [MStr(key)]) == Some((MList([MStr(key), m]), after))
  {
    assert ReadValue(lit + ("}" + after)) == Some((m, "}" + after));
    SkipNone("}" + after);
    ReadLast(lit + ("}" + after), [MStr(key)], m, "}" + after, after);
    assert [MStr(key)] + [m] == [MStr(key), m];
  }

  /** Every encoded value's literal denotes the value's MOO form. */
  lemma {:induction false} EncodeDenotes(v: JsonValue)
    ensures Denotes(Encode(v), ToMoo(v))
    decreases v, 2
  {
    forall after: string | after == [] || !IsDigit(after[0])
      ensures ReadValue(Encode(v) + after) == Some((ToMoo(v), after))
    {
      ReadEncoded(v, after);
    }
  }

  /** Every encoded value reads back, from the front of any text that does not continue it with a digit, as the value it denotes. */
  lemma {:induction false} ReadEncoded(v: JsonValue, rest: string)
    requires rest == [] || !IsDigit(rest[0])
    ensures ReadValue(Encode(v) + rest) == Some((ToMoo(v), rest))
    decreases v, 1
  {
    match v
    case JNull =>
      ReadNat(0, rest);
    case JBool(b) =>
      ReadNat(if b then 1 else 0, rest);
    case JInt(i) =>
      if i < 0 {
        ReadNegative(-i, rest);
      } else {
        ReadNat(i, rest);
      }
    case JStr(s) =>
      ReadKey(s, rest);
    case JList(items) =>
      if items == [] {
        assert Encode(v) == "{}";
        ReadEmpty(rest);
      } else {
        ReadList(v, rest);
      }
    case JDict(entries) =>
      if entries == [] {
        assert Encode(v) == "{}";
        ReadEmpty(rest);
      } else {
        ReadDict(v, rest);
      }
  }

  /** `{}` reads back as the empty list. */
  lemma ReadEmpty(rest: string)
    ensures ReadValue("{}" + rest) == Some((MList([]), rest))
  {
    assert ("{}" + rest)[1..] == "}" + rest;
    assert ("}" + rest)[1..] == rest;
  }

  lemma {:induction false} ReadList(v: JsonValue, rest: string)
    requires v.JList? && v.items != []
    requires rest == [] || !IsDigit(rest[0])
    ensures ReadValue(Encode(v) + rest) == Some((ToMoo(v), rest))
    decreases v, 0
  {
    var lits := ElementLiterals(v);
    var vals := ToMoo(v).elems;
    forall k | 0 <= k < |lits|
      ensures Denotes(lits[k], vals[k])
    {
      EncodeDenotes(v.items[k]);
    }
    var body := Join(", ", lits);
    assert body != [];
    assert Encode(v) == "{" + (" " + body + " ") + "}";
    Braced(body, rest);
    ReadOpen(body + " }" + rest);
    DenoteEach(lits, vals);
    ReadJoined(lits, vals, [], rest);
    assert [] + vals == vals;
  }

  lemma {:induction false} ReadDict(v: JsonValue, rest: string)
    requires v.JDict? && v.entries != []
    requires rest == [] || !IsDigit(rest[0])
    ensures ReadValue(Encode(v) + rest) == Some((ToMoo(v), rest))
    decreases v, 0
  {
    var lits := PairLiterals(v);
    var vals := ToMoo(v).elems;
    forall k | 0 <= k < |lits|
      ensures Denotes(lits[k], vals[k])
    {
      var key := v.entries[k].0;
      var value := v.entries[k].1;
      assert lits[k] == PairLiteral(key, value);
      EncodeDenotes(value);
      forall after: string | after == [] || !IsDigit(after[0])
        ensures ReadValue(lits[k] + after) == Some((vals[k], after))
      {
        ReadPairOf(key, Encode(value), ToMoo(value), after);
      }
    }
    var body := Join(", ", lits);
    assert body != [];
    assert Encode(v) == "{" + (" " + body + " ") + "}";
    Braced(body, rest);
    ReadOpen(body + " }" + rest);
    DenoteEach(lits, vals);
    ReadJoined(lits, vals, [], rest);
    assert [] + vals == vals;
  }

  /** Reading the whole literal of any value gives exactly the value it denotes. */
  lemma LiteralDenotes(v: JsonValue)
    ensures ReadValue(Encode(v)) == Some((ToMoo(v), []))
  {
    ReadEncoded(v, []);
    assert Encode(v) + [] == Encode(v);
  }
}
