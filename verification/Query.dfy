/** Percent-encoding and query strings (src/calendar/util/query.cpp), with the decoder that reads them
    back, and the request path of an event. Characters stand for bytes. */
module Query {
  import opened Wrappers

  predicate IsBytes(s: string) {
    forall i :: 0 <= i < |s| ==> s[i] as int < 256
  }

  // ---------- percent-encoding ----------

  const HEX: string := "0123456789ABCDEF"

  /** The unreserved characters of section 2.3 of RFC 3986. */
  predicate IsUnreserved(c: char) {
    'A' <= c <= 'Z' || 'a' <= c <= 'z' || '0' <= c <= '9' || c == '-' || c == '_' || c == '.' || c == '~'
  }

  function Triplet(c: char): string
    requires c as int < 256
  {
    ['%', HEX[c as int / 16], HEX[c as int % 16]]
  }

  function EncodedByte(c: char): string
    requires c as int < 256
  {
    if IsUnreserved(c) then [c] else Triplet(c)
  }

  function Encoded(s: string): string
    requires IsBytes(s)
  {
    if s == [] then [] else EncodedByte(s[0]) + Encoded(s[1..])
  }

  /** The value of an upper-case hexadecimal digit. */
  function HexValue(c: char): Option<int> {
    if '0' <= c <= '9' then Some(c as int - '0' as int)
    else if 'A' <= c <= 'F' then Some(c as int - 'A' as int + 10)
    else None
  }

  /** Percent-decoding as in section 2.1 of RFC 3986; None if an escape is malformed. */
  function Decoded(t: string): Option<string> {
    if t == [] then Some([])
    else if t[0] != '%' then
      var rest := Decoded(t[1..]);
      if rest.Some? then Some([t[0]] + rest.value) else None
    else if |t| < 3 || HexValue(t[1]).None? || HexValue(t[2]).None? then None
    else
      var rest := Decoded(t[3..]);
      if rest.Some? then Some([(HexValue(t[1]).value * 16 + HexValue(t[2]).value) as char] + rest.value) else None
  }

  /** Letters, digits, hyphen, underscore, full stop and tilde stay; every other byte, the separators of a
      URL among them, becomes a percent sign and its two hexadecimal digits. */
  lemma EncodedCharacters(c: char)
    requires c as int < 256
    ensures Encoded([c]) == [c] || (|Encoded([c])| == 3 && Encoded([c])[0] == '%')
    ensures Encoded([c]) == [c]
       <==> 'a' <= c <= 'z' || 'A' <= c <= 'Z' || '0' <= c <= '9' || c == '-' || c == '_' || c == '.' || c == '~'
    ensures c == '#' ==> Encoded([c]) == "%23"
    ensures c == '@' ==> Encoded([c]) == "%40"
    ensures c == '/' ==> Encoded([c]) == "%2F"
    ensures c == ' ' ==> Encoded([c]) == "%20"
    ensures c == '+' ==> Encoded([c]) == "%2B"
    ensures c == '&' ==> Encoded([c]) == "%26"
  {
    assert [c][1..] == [];
    assert Encoded([c]) == EncodedByte(c);
  }

  lemma HexRoundTrip(n: int)
    requires 0 <= n < 16
    ensures HexValue(HEX[n]) == Some(n) && IsUnreserved(HEX[n])
  {
    assert n == 0 || n == 1 || n == 2 || n == 3 || n == 4 || n == 5 || n == 6 || n == 7
           || n == 8 || n == 9 || n == 10 || n == 11 || n == 12 || n == 13 || n == 14 || n == 15;
  }

  lemma DecodedByte(c: char, t: string)
    requires c as int < 256
    ensures Decoded(EncodedByte(c) + t)
         == if Decoded(t).Some? then Some([c] + Decoded(t).value) else None
  {
    var head := EncodedByte(c);
    assert (head + t)[|head|..] == t;
    if !IsUnreserved(c) {
      HexRoundTrip(c as int / 16);
      HexRoundTrip(c as int % 16);
      assert (head + t)[0] == '%' && (head + t)[1] == head[1] && (head + t)[2] == head[2];
    }
  }

  /** Decoding what was encoded gives back every byte string. */
  lemma {:induction false} EncodingRoundTrip(s: string)
    requires IsBytes(s)
    ensures Decoded(Encoded(s)) == Some(s)
  {
    if s == [] {
    } else {
      var rest := Encoded(s[1..]);
      EncodingRoundTrip(s[1..]);
      DecodedByte(s[0], rest);
      assert Encoded(s) == EncodedByte(s[0]) + rest;
      assert [s[0]] + s[1..] == s;
    }
  }

  lemma EncodingInjective(a: string, b: string)
    requires IsBytes(a) && IsBytes(b) && Encoded(a) == Encoded(b)
    ensures a == b
  {
    EncodingRoundTrip(a);
    EncodingRoundTrip(b);
  }

  /** Only unreserved characters, and percent signs each followed by two hexadecimal digits. */
  predicate Escaped(t: string) {
    t == []
    || (IsUnreserved(t[0]) && Escaped(t[1..]))
    || (t[0] == '%' && |t| >= 3 && HexValue(t[1]).Some? && HexValue(t[2]).Some? && Escaped(t[3..]))
  }

  lemma {:induction false} EncodingEscapes(s: string)
    requires IsBytes(s)
    ensures Escaped(Encoded(s))
  {
    if s == [] {
    } else {
      EncodingEscapes(s[1..]);
      var head := EncodedByte(s[0]);
      assert (head + Encoded(s[1..]))[|head|..] == Encoded(s[1..]);
      if !IsUnreserved(s[0]) {
        HexRoundTrip(s[0] as int / 16);
        HexRoundTrip(s[0] as int % 16);
      }
    }
  }

  predicate Free(t: string, c: char) {
    forall i :: 0 <= i < |t| ==> t[i] != c
  }

  /** No separator of a query or a path survives encoding. */
  lemma {:induction false} EncodingFree(s: string, c: char)
    requires IsBytes(s) && !IsUnreserved(c) && c != '%'
    ensures Free(Encoded(s), c)
  {
    if s == [] {
    } else {
      EncodingFree(s[1..], c);
      if !IsUnreserved(s[0]) {
        HexRoundTrip(s[0] as int / 16);
        HexRoundTrip(s[0] as int % 16);
      }
    }
  }

  /** Text of unreserved characters is encoded as itself. */
  lemma {:induction false} UnreservedUnchanged(s: string)
    requires forall i :: 0 <= i < |s| ==> IsUnreserved(s[i])
    ensures IsBytes(s) && Encoded(s) == s
  {
    if s == [] {
    } else {
      UnreservedUnchanged(s[1..]);
      assert [s[0]] + s[1..] == s;
    }
  }

  lemma {:induction false} EncodedLast(s: string, c: char)
    requires IsBytes(s) && c as int < 256
    ensures IsBytes(s + [c]) && Encoded(s + [c]) == Encoded(s) + EncodedByte(c)
  {
    if s == [] {
      assert [c][1..] == [];
    } else {
      assert (s + [c])[1..] == s[1..] + [c];
      EncodedLast(s[1..], c);
    }
  }

  method UrlEncode(value: string) returns (result: string)
    requires IsBytes(value)
    ensures result == Encoded(value)
  {
    result := [];
    for i := 0 to |value|
      invariant result == Encoded(value[..i])
    {
      var c := value[i];
      assert value[..i + 1] == value[..i] + [c];
      EncodedLast(value[..i], c);
      if IsUnreserved(c) {
        result := result + [c];
      } else {
        result := result + ['%'];
        result := result + [HEX[c as int / 16]];
        result := result + [HEX[c as int % 16]];
      }
    }
    assert value[..|value|] == value;
  }

  // ---------- splitting ----------

  function Split(s: string, sep: char): (pieces: seq<string>)
    ensures |pieces| > 0
  {
    if s == [] then [[]]
    else if s[0] == sep then [[]] + Split(s[1..], sep)
    else
      var rest := Split(s[1..], sep);
      [[s[0]] + rest[0]] + rest[1..]
  }

  lemma {:induction false} SplitFree(a: string, sep: char)
    requires Free(a, sep)
    ensures Split(a, sep) == [a]
  {
    if a == [] {
    } else {
      SplitFree(a[1..], sep);
      assert [a[0]] + a[1..] == a;
    }
  }

  lemma {:induction false} SplitFirst(a: string, b: string, sep: char)
    requires Free(a, sep)
    ensures Split(a + [sep] + b, sep) == [a] + Split(b, sep)
  {
    var s := a + [sep] + b;
    if a == [] {
      assert s[1..] == b;
    } else {
      assert s[1..] == a[1..] + [sep] + b;
      SplitFirst(a[1..], b, sep);
      assert [a[0]] + a[1..] == a;
    }
  }

  // ---------- query strings ----------

  type Pair = (string, string)

  ghost predicate PairsAreBytes(pairs: seq<Pair>) {
    forall i :: 0 <= i < |pairs| ==> IsBytes(pairs[i].0) && IsBytes(pairs[i].1)
  }

  function PairText(pair: Pair): string
    requires IsBytes(pair.0) && IsBytes(pair.1)
  {
    Encoded(pair.0) + "=" + Encoded(pair.1)
  }

  function Joined(pairs: seq<Pair>): string
    requires forall i :: 0 <= i < |pairs| ==> IsBytes(pairs[i].0) && IsBytes(pairs[i].1)
  {
    if pairs == [] then []
    else PairText(pairs[0]) + if |pairs| == 1 then [] else "&" + Joined(pairs[1..])
  }

  /** How a server reads one key=value piece. */
  function ParsedPair(piece: string): Option<Pair> {
    var sides := Split(piece, '=');
    if |sides| != 2 then None
    else
      var key, value := Decoded(sides[0]), Decoded(sides[1]);
      if key.Some? && value.Some? then Some((key.value, value.value)) else None
  }

  function ParsedPairs(pieces: seq<string>): Option<seq<Pair>> {
    if pieces == [] then Some([])
    else
      var first, rest := ParsedPair(pieces[0]), ParsedPairs(pieces[1..]);
      if first.Some? && rest.Some? then Some([first.value] + rest.value) else None
  }

  /** How a server reads a query string: nothing, or a question mark and pairs joined by &. */
  function ParsedQuery(query: string): Option<seq<Pair>> {
    if query == [] then Some([])
    else if query[0] != '?' then None
    else ParsedPairs(Split(query[1..], '&'))
  }

  lemma PairRoundTrip(pair: Pair)
    requires IsBytes(pair.0) && IsBytes(pair.1)
    ensures ParsedPair(PairText(pair)) == Some(pair)
    ensures Free(PairText(pair), '&')
  {
    var key, value := Encoded(pair.0), Encoded(pair.1);
    EncodingFree(pair.0, '=');
    EncodingFree(pair.1, '=');
    EncodingFree(pair.0, '&');
    EncodingFree(pair.1, '&');
    SplitFirst(key, value, '=');
    SplitFree(value, '=');
    EncodingRoundTrip(pair.0);
    EncodingRoundTrip(pair.1);
  }

  lemma JoinedStep(pairs: seq<Pair>)
    requires |pairs| > 1 && PairsAreBytes(pairs)
    ensures Joined(pairs) == PairText(pairs[0]) + ("&" + Joined(pairs[1..]))
  {
  }

  lemma JoinedOne(pair: Pair)
    requires IsBytes(pair.0) && IsBytes(pair.1)
    ensures PairsAreBytes([pair]) && Joined([pair]) == PairText(pair)
  {
    assert PairText(pair) + [] == PairText(pair);
  }

  lemma ParsedFirst(pair: Pair, rest: seq<string>)
    requires IsBytes(pair.0) && IsBytes(pair.1) && ParsedPairs(rest).Some?
    ensures ParsedPairs([PairText(pair)] + rest) == Some([pair] + ParsedPairs(rest).value)
  {
    PairRoundTrip(pair);
    var pieces := [PairText(pair)] + rest;
    assert pieces[0] == PairText(pair) && pieces[1..] == rest;
  }

  lemma OneRoundTrip(pair: Pair)
    requires IsBytes(pair.0) && IsBytes(pair.1)
    ensures PairsAreBytes([pair]) && ParsedPairs(Split(Joined([pair]), '&')) == Some([pair])
  {
    PairRoundTrip(pair);
    JoinedOne(pair);
    SplitFree(PairText(pair), '&');
    ParsedFirst(pair, []);
    assert [pair] + [] == [pair] && [PairText(pair)] + [] == [PairText(pair)];
  }

  lemma SplitBehind(text: string, rest: string)
    requires Free(text, '&')
    ensures Split(text + ("&" + rest), '&') == [text] + Split(rest, '&')
  {
    SplitFirst(text, rest, '&');
    assert text + ['&'] + rest == text + ("&" + rest);
  }

  lemma {:induction false} JoinedRoundTrip(pairs: seq<Pair>)
    requires pairs != [] && PairsAreBytes(pairs)
    ensures ParsedPairs(Split(Joined(pairs), '&')) == Some(pairs)
  {
    if |pairs| == 1 {
      OneRoundTrip(pairs[0]);
      assert pairs == [pairs[0]];
    } else {
      var rest := pairs[1..];
      JoinedRoundTrip(rest);
      JoinedStep(pairs);
      PairRoundTrip(pairs[0]);
      SplitBehind(PairText(pairs[0]), Joined(rest));
      ParsedFirst(pairs[0], Split(Joined(rest), '&'));
      assert [pairs[0]] + rest == pairs;
    }
  }

  function Built(pairs: seq<Pair>): string
    requires forall i :: 0 <= i < |pairs| ==> IsBytes(pairs[i].0) && IsBytes(pairs[i].1)
  {
    if pairs == [] then [] else "?" + Joined(pairs)
  }

  lemma QuestionMark(text: string)
    ensures ParsedQuery("?" + text) == ParsedPairs(Split(text, '&'))
  {
    assert ("?" + text)[0] == '?' && ("?" + text)[1..] == text;
  }

  /** Reading a built query gives back the added pairs, in order. */
  lemma BuildRoundTrip(pairs: seq<Pair>)
    requires PairsAreBytes(pairs)
    ensures ParsedQuery(Built(pairs)) == Some(pairs)
  {
    if pairs == [] {
      assert Built(pairs) == [];
    } else {
      JoinedRoundTrip(pairs);
      QuestionMark(Joined(pairs));
    }
  }

  lemma AppendBehind(a: string, b: string, c: string)
    ensures a + ("&" + (b + "&" + c)) == (a + ("&" + b)) + "&" + c
  {
  }

  lemma {:induction false} JoinedLast(pairs: seq<Pair>, last: Pair)
    requires pairs != [] && PairsAreBytes(pairs) && IsBytes(last.0) && IsBytes(last.1)
    ensures PairsAreBytes(pairs + [last]) && Joined(pairs + [last]) == Joined(pairs) + "&" + PairText(last)
  {
    var all := pairs + [last];
    var head := PairText(pairs[0]);
    JoinedStep(all);
    if |pairs| == 1 {
      assert all[1..] == [last] && pairs == [pairs[0]];
      JoinedOne(last);
      JoinedOne(pairs[0]);
      assert head + ("&" + PairText(last)) == head + "&" + PairText(last);
    } else {
      assert all[1..] == pairs[1..] + [last];
      JoinedLast(pairs[1..], last);
      JoinedStep(pairs);
      AppendBehind(head, Joined(pairs[1..]), PairText(last));
    }
  }

  class QueryBuilder {
    var params: seq<Pair>

    constructor ()
      ensures params == []
    {
      params := [];
    }

    method Add(key: string, value: string)
      modifies this
      ensures params == old(params) + [(key, value)]
    {
      params := params + [(key, value)];
    }

    method Build() returns (result: string)
      requires PairsAreBytes(params)
      ensures result == Built(params)
      ensures ParsedQuery(result) == Some(params)
    {
      BuildRoundTrip(params);
      if |params| == 0 {
        return "";
      }
      result := "?";
      var first := true;
      for i := 0 to |params|
        invariant first <==> i == 0
        invariant result == BuiltSoFar(params, i)
      {
        BuildStep(params, i);
        if !first {
          result := result + "&";
        }
        first := false;
        var key := UrlEncode(params[i].0);
        var value := UrlEncode(params[i].1);
        result := result + (key + "=" + value);
      }
      assert params[..|params|] == params;
    }
  }

  /** The query after its first n pairs. */
  function BuiltSoFar(pairs: seq<Pair>, n: nat): string
    requires n <= |pairs| && forall i :: 0 <= i < |pairs| ==> IsBytes(pairs[i].0) && IsBytes(pairs[i].1)
  {
    "?" + Joined(pairs[..n])
  }

  lemma BuildStep(pairs: seq<Pair>, n: nat)
    requires n < |pairs| && PairsAreBytes(pairs)
    ensures BuiltSoFar(pairs, n + 1)
         == (if n == 0 then BuiltSoFar(pairs, n) else BuiltSoFar(pairs, n) + "&") + PairText(pairs[n])
  {
    assert pairs[..n + 1] == pairs[..n] + [pairs[n]];
    if n == 0 {
      JoinedOne(pairs[0]);
      assert pairs[..1] == [pairs[0]] && BuiltSoFar(pairs, 0) == "?";
    } else {
      JoinedLast(pairs[..n], pairs[n]);
      Behind("?", Joined(pairs[..n]), PairText(pairs[n]));
    }
  }

  lemma Behind(a: string, b: string, c: string)
    ensures a + (b + "&" + c) == a + b + "&" + c
  {
  }

  // ---------- request paths ----------

  function EventPath(calendarId: string, eventId: string): string
    requires IsBytes(calendarId) && IsBytes(eventId)
  {
    "/calendars/" + Encoded(calendarId) + "/events/" + Encoded(eventId)
  }

  /** How a server reads the path of one event. */
  function ParsedEventPath(path: string): Option<(string, string)> {
    var parts := Split(path, '/');
    if |parts| != 5 || parts[0] != "" || parts[1] != "calendars" || parts[3] != "events" then None
    else
      var calendar, event := Decoded(parts[2]), Decoded(parts[4]);
      if calendar.Some? && event.Some? then Some((calendar.value, event.value)) else None
  }

  lemma SlashFirst(part: string, rest: string)
    requires Free(part, '/')
    ensures Split(part + ("/" + rest), '/') == [part] + Split(rest, '/')
  {
    SplitFirst(part, rest, '/');
    assert part + ['/'] + rest == part + ("/" + rest);
  }

  lemma PathInParts(c: string, e: string)
    ensures "/calendars/" + c + "/events/" + e
         == "" + ("/" + ("calendars" + ("/" + (c + ("/" + ("events" + ("/" + e)))))))
  {
    assert "/calendars/" == "/" + "calendars" + "/";
    assert "/events/" == "/" + "events" + "/";
  }

  lemma PathSplit(c: string, e: string)
    requires Free(c, '/') && Free(e, '/')
    ensures Split("/calendars/" + c + "/events/" + e, '/') == ["", "calendars", c, "events", e]
  {
    PathInParts(c, e);
    SlashFirst("", "calendars" + ("/" + (c + ("/" + ("events" + ("/" + e))))));
    SlashFirst("calendars", c + ("/" + ("events" + ("/" + e))));
    SlashFirst(c, "events" + ("/" + e));
    SlashFirst("events", e);
    SplitFree(e, '/');
  }

  /** The path of an event names that event of that calendar and no other, whatever bytes the ids hold. */
  lemma EventPathRoundTrip(calendarId: string, eventId: string)
    requires IsBytes(calendarId) && IsBytes(eventId)
    ensures ParsedEventPath(EventPath(calendarId, eventId)) == Some((calendarId, eventId))
  {
    EncodingFree(calendarId, '/');
    EncodingFree(eventId, '/');
    EncodingRoundTrip(calendarId);
    EncodingRoundTrip(eventId);
    PathSplit(Encoded(calendarId), Encoded(eventId));
  }
}
